/** The output directory: the yearly and monthly summary envelopes, the raw yearly
    cache of diary texts, and the loaders that read them back. Paths are relative to
    the output directory; the clock reading the writers stamp into a file is a
    parameter, already formatted as `strftime('%Y-%m-%d %H:%M:%S')`. */
module SummaryFiles {
  import opened Seqs
  import opened Text
  import opened Records

  // ---------------------------------------------------------------- file names

  /** `f"{year}_summary.txt"`. */
  function YearlySummaryPath(year: nat): string
  {
    NatToString(year) + "_summary.txt"
  }

  /** `str(year) / f"{year}年{month}月_summary.txt"`. */
  function MonthlySummaryPath(year: nat, month: nat): string
  {
    NatToString(year) + ("/" + MonthlyFileName(year, month))
  }

  function MonthlyFileName(year: nat, month: nat): string
  {
    NatToString(year) + ("年" + (NatToString(month) + "月_summary.txt"))
  }

  /** `f"{year}年日记原文.txt"`. */
  function RawCachePath(year: nat): string
  {
    NatToString(year) + "年日记原文.txt"
  }

  /** A digit string followed by a text that starts with a non-digit is read back
      unambiguously. */
  lemma {:induction false} DigitsThen(a: string, x: string, b: string, y: string)
    requires AllDigits(a) && AllDigits(b)
    requires x != [] && !IsDigit(x[0]) && y != [] && !IsDigit(y[0])
    requires a + x == b + y
    ensures a == b && x == y
  {
    assert a == (a + x)[..|a|] && b == (b + y)[..|b|];
    assert x == (a + x)[|a|..] && y == (b + y)[|b|..];
  }

  /** Different years and months have different monthly files. */
  lemma MonthlyPathInjective(y1: nat, m1: nat, y2: nat, m2: nat)
    requires MonthlySummaryPath(y1, m1) == MonthlySummaryPath(y2, m2)
    ensures y1 == y2 && m1 == m2
  {
    var f1, f2 := MonthlyFileName(y1, m1), MonthlyFileName(y2, m2);
    DigitsThen(NatToString(y1), "/" + f1, NatToString(y2), "/" + f2);
    assert f1 == ("/" + f1)[1..] && f2 == ("/" + f2)[1..];
    var t1 := "年" + (NatToString(m1) + "月_summary.txt");
    var t2 := "年" + (NatToString(m2) + "月_summary.txt");
    DigitsThen(NatToString(y1), t1, NatToString(y2), t2);
    NatToStringInjective(y1, y2);
    assert t1[1..] == NatToString(m1) + "月_summary.txt" && t2[1..] == NatToString(m2) + "月_summary.txt";
    DigitsThen(NatToString(m1), "月_summary.txt", NatToString(m2), "月_summary.txt");
    NatToStringInjective(m1, m2);
  }

  /** Different years have different yearly files and different raw caches, and the
      three kinds of file never share a name. */
  lemma PathsDistinct(y1: nat, y2: nat, m: nat)
    ensures YearlySummaryPath(y1) == YearlySummaryPath(y2) ==> y1 == y2
    ensures RawCachePath(y1) == RawCachePath(y2) ==> y1 == y2
    ensures YearlySummaryPath(y1) != RawCachePath(y2)
    ensures YearlySummaryPath(y1) != MonthlySummaryPath(y2, m)
    ensures RawCachePath(y1) != MonthlySummaryPath(y2, m)
  {
    var a, b := NatToString(y1), NatToString(y2);
    if YearlySummaryPath(y1) == YearlySummaryPath(y2) {
      DigitsThen(a, "_summary.txt", b, "_summary.txt");
      NatToStringInjective(y1, y2);
    }
    if RawCachePath(y1) == RawCachePath(y2) {
      DigitsThen(a, "年日记原文.txt", b, "年日记原文.txt");
      NatToStringInjective(y1, y2);
    }
    if YearlySummaryPath(y1) == RawCachePath(y2) {
      DigitsThen(a, "_summary.txt", b, "年日记原文.txt");
    }
    var r := "/" + MonthlyFileName(y2, m);
    if YearlySummaryPath(y1) == MonthlySummaryPath(y2, m) {
      DigitsThen(a, "_summary.txt", b, r);
    }
    if RawCachePath(y1) == MonthlySummaryPath(y2, m) {
      DigitsThen(a, "年日记原文.txt", b, r);
    }
  }

  // ---------------------------------------------------------------- summary envelopes

  /** A summary file: the title line, a rule of 50 `=`, a blank line, the summary, a
      blank line, the rule again and the generation time. */
  function Envelope(title: string, summary: string, now: string): string
  {
    title + "\n" + Rule(50) + "\n\n" + summary + "\n\n" + Rule(50) + "\n" + "生成时间: " + now + "\n"
  }

  function YearlyTitle(year: nat): string
  {
    NatToString(year) + "年日记摘要"
  }

  function MonthlyTitle(year: nat, month: nat): string
  {
    NatToString(year) + "年" + NatToString(month) + "月日记摘要"
  }

  /** `line.startswith('=')`. */
  predicate IsRuleLine(line: string)
  {
    line != [] && line[0] == '='
  }

  /** The lines the `in_summary` flag machine of the monthly loader collects from
      `lines`, entered with the flag at `inSummary`: the first line starting with `=`
      sets the flag and is dropped, a second one ends the scan, and only the lines
      seen while the flag is set are kept. */
  function Collected(lines: seq<string>, inSummary: bool): seq<string>
  {
    if lines == [] then []
    else if IsRuleLine(lines[0]) then (if inSummary then [] else Collected(lines[1..], true))
    else (if inSummary then [lines[0]] else []) + Collected(lines[1..], inSummary)
  }

  /** What `load_monthly_summary_from_file` returns for a file's text: the text as
      read in text mode, its collected lines joined by newlines, stripped. */
  function SummarySection(text: string): string
  {
    SectionOf(Newlines(text))
  }

  /** The collected lines of a text already read, joined by newlines and stripped. */
  function SectionOf(read: string): string
  {
    Strip(Join(Collected(SplitOn(read, "\n"), false), "\n"))
  }

  /** Lines without a rule line pass through the flag machine unchanged, kept when the
      flag is set and dropped otherwise. */
  lemma {:induction false} CollectedPlain(ls: seq<string>, rest: seq<string>, inSummary: bool)
    requires forall i :: 0 <= i < |ls| ==> !IsRuleLine(ls[i])
    ensures Collected(ls + rest, inSummary) == (if inSummary then ls else []) + Collected(rest, inSummary)
    decreases |ls|
  {
    if ls == [] {
      assert ls + rest == rest;
    } else {
      assert (ls + rest)[0] == ls[0];
      assert (ls + rest)[1..] == ls[1..] + rest;
      CollectedPlain(ls[1..], rest, inSummary);
      if inSummary {
        assert [ls[0]] + ls[1..] == ls;
      }
    }
  }

  lemma JoinCons(a: string, xs: seq<string>, sep: string)
    requires xs != []
    ensures Join([a] + xs, sep) == a + sep + Join(xs, sep)
  {
    assert ([a] + xs)[1..] == xs;
  }

  /** Two blank lines around the lines of a text join to the text between two newlines. */
  lemma JoinBlankAround(s: string)
    ensures Join([""] + (SplitOn(s, "\n") + [""]), "\n") == "\n" + s + "\n"
  {
    var ls := SplitOn(s, "\n");
    JoinSplit(s, "\n");
    var xs := ls + [""];
    JoinSnoc(xs, "\n");
    assert xs[..|xs| - 1] == ls;
    JoinCons("", xs, "\n");
  }

  lemma NoNewlineInRule(n: nat)
    ensures '\n' !in Rule(n)
  {
  }

  /** The envelope, line by line: the title, the rule, a blank line, the lines of the
      summary, a blank line, the rule, then the time stamp's lines. */
  lemma EnvelopeLines(title: string, summary: string, now: string)
    requires '\n' !in title
    ensures SplitOn(Envelope(title, summary, now), "\n") ==
            [title] + ([Rule(50)] + ([""] + (SplitOn(summary, "\n") + ([""] +
            ([Rule(50)] + SplitOn("生成时间: " + now + "\n", "\n"))))))
  {
    var bar := Rule(50);
    var stamp := "生成时间: " + now + "\n";
    var tail := bar + ("\n" + stamp);
    var afterSummary := "" + ("\n" + tail);
    var fromBlank := "" + ("\n" + (summary + ("\n" + afterSummary)));
    assert Envelope(title, summary, now) == title + ("\n" + (bar + ("\n" + fromBlank)));
    NoNewlineInRule(50);
    SplitLine(title, bar + ("\n" + fromBlank));
    SplitLine(bar, fromBlank);
    SplitLine("", summary + ("\n" + afterSummary));
    assert summary + ("\n" + afterSummary) == summary + ['\n'] + afterSummary;
    SplitCharConcat(summary, '\n', afterSummary);
    SplitLine("", tail);
    SplitLine(bar, stamp);
  }

  /** One step of the flag machine. */
  lemma CollectedCons(line: string, rest: seq<string>, inSummary: bool)
    ensures Collected([line] + rest, inSummary) ==
            if IsRuleLine(line) then (if inSummary then [] else Collected(rest, true))
            else (if inSummary then [line] else []) + Collected(rest, inSummary)
  {
    assert ([line] + rest)[0] == line && ([line] + rest)[1..] == rest;
  }

  /** What the flag machine keeps of an envelope: the stripped summary, provided the
      title is one line not starting with `=`, and no line of the summary starts with
      `=` (such a line would end the summary early). */
  lemma EnvelopeSection(title: string, summary: string, now: string)
    requires '\n' !in title && !IsRuleLine(title)
    requires forall i :: 0 <= i < |SplitOn(summary, "\n")| ==> !IsRuleLine(SplitOn(summary, "\n")[i])
    ensures SectionOf(Envelope(title, summary, now)) == Strip(summary)
  {
    var bar := Rule(50);
    var ls := SplitOn(summary, "\n");
    var closing := [bar] + SplitOn("生成时间: " + now + "\n", "\n");
    var afterBlank := ls + ([""] + closing);
    EnvelopeLines(title, summary, now);
    var lines := [title] + ([bar] + ([""] + afterBlank));
    CollectedClosing(ls, now);
    CollectedCons("", afterBlank, true);
    CollectedCons(bar, [""] + afterBlank, false);
    CollectedCons(title, [bar] + ([""] + afterBlank), false);
    assert Collected(lines, false) == [""] + (ls + [""]);
    JoinBlankAround(summary);
    StripSurrounded("\n", summary, "\n");
  }

  /** Inside the section, the summary's lines are kept up to the blank line and the
      closing rule, and nothing after that rule is kept. */
  lemma CollectedClosing(ls: seq<string>, now: string)
    requires forall i :: 0 <= i < |ls| ==> !IsRuleLine(ls[i])
    ensures Collected(ls + ([""] + ([Rule(50)] + SplitOn("生成时间: " + now + "\n", "\n"))), true) == ls + [""]
  {
    var bar := Rule(50);
    var closing := [bar] + SplitOn("生成时间: " + now + "\n", "\n");
    assert closing == [bar] + closing[1..];
    CollectedCons(bar, closing[1..], true);
    CollectedCons("", closing, true);
    assert Collected([""] + closing, true) == [""];
    CollectedPlain(ls, [""] + closing, true);
  }

  /** An envelope read in text mode is the envelope around the summary as read, where
      a final `\r` of the summary merges with the line break written after it. */
  lemma EnvelopeAsRead(title: string, summary: string, now: string)
    requires '\r' !in title && '\r' !in now
    ensures Newlines(Envelope(title, summary, now)) == Envelope(title, Newlines(DropCr(summary)), now)
  {
    EnvelopeParts(title, summary, now);
    EnvelopeParts(title, Newlines(DropCr(summary)), now);
    EnvelopeFrameNoCr(title, now);
    NewlinesAround(EnvelopeHead(title), summary, EnvelopeTail(now));
  }

  /** What the writers put before the summary. */
  function EnvelopeHead(title: string): string
  {
    title + "\n" + Rule(50) + "\n\n"
  }

  /** What the writers put after the summary and its first line break. */
  function EnvelopeTail(now: string): string
  {
    "\n" + Rule(50) + "\n" + "生成时间: " + now + "\n"
  }

  lemma EnvelopeParts(title: string, summary: string, now: string)
    ensures Envelope(title, summary, now) == EnvelopeHead(title) + (summary + ("\n" + EnvelopeTail(now)))
  {
  }

  lemma EnvelopeFrameNoCr(title: string, now: string)
    requires '\r' !in title && '\r' !in now
    ensures '\r' !in EnvelopeHead(title) && '\r' !in EnvelopeTail(now)
  {
    assert '\r' !in Rule(50);
  }

  /** Envelope round trip: the monthly loader gives back the stripped summary as read
      in text mode (`\r\n` and `\r` become `\n`), provided the title is one line not
      starting with `=`, and no line of the summary starts with `=`. The title and the
      time stamp hold no carriage return. */
  lemma EnvelopeRoundTrip(title: string, summary: string, now: string)
    requires '\n' !in title && !IsRuleLine(title) && '\r' !in title && '\r' !in now
    requires forall i :: 0 <= i < |SplitOn(Newlines(summary), "\n")| ==>
               !IsRuleLine(SplitOn(Newlines(summary), "\n")[i])
    ensures SummarySection(Envelope(title, summary, now)) == Strip(Newlines(summary))
  {
    var read := Newlines(DropCr(summary));
    EnvelopeAsRead(title, summary, now);
    ReadWithoutFinalCr(summary);
    EnvelopeSection(title, read, now);
  }

  /** The monthly file title starts with a digit and has no line break. */
  lemma MonthlyTitleShape(year: nat, month: nat)
    ensures '\n' !in MonthlyTitle(year, month) && !IsRuleLine(MonthlyTitle(year, month))
    ensures '\r' !in MonthlyTitle(year, month)
  {
    DigitsOnly(year);
    DigitsOnly(month);
    assert MonthlyTitle(year, month)[0] == NatToString(year)[0];
  }

  /** Monthly round trip: reading back what `save_monthly_summary_to_file` wrote gives
      the stripped summary as read in text mode, when no line of the summary starts
      with `=`. */
  lemma MonthlyRoundTrip(year: nat, month: nat, summary: string, now: string)
    requires '\r' !in now
    requires forall i :: 0 <= i < |SplitOn(Newlines(summary), "\n")| ==>
               !IsRuleLine(SplitOn(Newlines(summary), "\n")[i])
    ensures SummarySection(Envelope(MonthlyTitle(year, month), summary, now)) == Strip(Newlines(summary))
  {
    MonthlyTitleShape(year, month);
    EnvelopeRoundTrip(MonthlyTitle(year, month), summary, now);
  }
}
