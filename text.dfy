/** The parts of Python's `str` and `int` that the diary pipeline relies on, over
    `seq<char>` (a Dafny `char` is a Unicode scalar value, like one element of a
    Python `str`). Digits and case are ASCII only; whitespace is Python's own set. */
module Text {
  import opened Seqs

  // ---------------------------------------------------------------- digits

  /** `c.isdigit()` / regex `\d`, restricted to the ASCII digits. */
  predicate IsDigit(c: char) { '0' <= c <= '9' }

  predicate AllDigits(s: string) { forall i :: 0 <= i < |s| ==> IsDigit(s[i]) }

  function DigitValue(c: char): (d: nat)
    requires IsDigit(c)
    ensures d < 10
  {
    c as int - '0' as int
  }

  /** `int(s)` for a string of digits (leading zeros allowed, as in `int("01") == 1`). */
  function DigitsValue(s: string): nat
    requires AllDigits(s)
  {
    if s == [] then 0 else 10 * DigitsValue(s[..|s| - 1]) + DigitValue(s[|s| - 1])
  }

  function DigitChar(d: nat): (c: char)
    requires d < 10
    ensures IsDigit(c) && DigitValue(c) == d
  {
    ('0' as int + d) as char
  }

  /** `str(n)` for a non-negative integer: decimal, without leading zeros. */
  function NatToString(n: nat): (s: string)
    ensures |s| >= 1 && AllDigits(s) && DigitsValue(s) == n
    ensures s[0] == '0' ==> n == 0
  {
    if n < 10 then [DigitChar(n)]
    else
      var s := NatToString(n / 10) + [DigitChar(n % 10)];
      assert s[..|s| - 1] == NatToString(n / 10);
      s
  }

  /** Distinct numbers print differently. */
  lemma NatToStringInjective(a: nat, b: nat)
    requires NatToString(a) == NatToString(b)
    ensures a == b
  {
  }

  /** Every year from 1000 to 9999 prints as exactly four digits. */
  lemma {:induction false} FourDigits(n: nat)
    requires 1000 <= n <= 9999
    ensures |NatToString(n)| == 4
  {
    var n1, n2, n3 := n / 10, n / 10 / 10, n / 10 / 10 / 10;
    assert 1 <= n3 < 10 && 10 <= n2 < 100 && 100 <= n1 < 1000;
    assert |NatToString(n3)| == 1;
    assert |NatToString(n2)| == |NatToString(n3)| + 1;
    assert |NatToString(n1)| == |NatToString(n2)| + 1;
    assert |NatToString(n)| == |NatToString(n1)| + 1;
  }

  /** `s.lower()`, restricted to ASCII letters. */
  function Lower(s: string): (r: string)
    ensures |r| == |s|
    ensures forall i :: 0 <= i < |s| ==> r[i] == (if 'A' <= s[i] <= 'Z' then (s[i] as int + 32) as char else s[i])
  {
    if s == [] then []
    else [if 'A' <= s[0] <= 'Z' then (s[0] as int + 32) as char else s[0]] + Lower(s[1..])
  }

  // ---------------------------------------------------------------- search

  /** `sub` occurs in `s` starting at position `p`. */
  predicate OccursAt(s: string, sub: string, p: nat)
  {
    p + |sub| <= |s| && s[p..p + |sub|] == sub
  }

  /** `s.find(sub, start)`: the leftmost occurrence at or after `start`, if any. */
  function FindFrom(s: string, sub: string, start: nat): (r: Option<nat>)
    ensures r.Some? ==> start <= r.value && OccursAt(s, sub, r.value)
    ensures forall p: nat :: start <= p && (r.None? || p < r.value) ==> !OccursAt(s, sub, p)
    decreases |s| - start
  {
    if start + |sub| > |s| then None
    else if OccursAt(s, sub, start) then Some(start)
    else FindFrom(s, sub, start + 1)
  }

  /** `sub in s`. */
  predicate Contains(s: string, sub: string)
    decreases |s|
  {
    OccursAt(s, sub, 0) || (s != [] && Contains(s[1..], sub))
  }

  /** `sub` occurs in the suffix from `k` exactly when `s.find(sub, k)` finds it. */
  lemma {:induction false} ContainsSuffix(s: string, sub: string, k: nat)
    requires k <= |s|
    ensures Contains(s[k..], sub) <==> FindFrom(s, sub, k).Some?
    decreases |s| - k
  {
    assert OccursAt(s[k..], sub, 0) <==> OccursAt(s, sub, k) by {
      if k + |sub| <= |s| {
        assert s[k..][0..|sub|] == s[k..k + |sub|];
      }
    }
    if k < |s| {
      assert s[k..][1..] == s[k + 1..];
      ContainsSuffix(s, sub, k + 1);
    }
  }

  /** `sub in s` agrees with `s.find(sub)`: it holds exactly when the search succeeds. */
  lemma ContainsFind(s: string, sub: string)
    ensures Contains(s, sub) <==> FindFrom(s, sub, 0).Some?
  {
    ContainsSuffix(s, sub, 0);
    assert s[0..] == s;
  }

  /** The leftmost occurrence is at `k` exactly when `sub` occurs there and nowhere earlier. */
  lemma FindFromIs(s: string, sub: string, k: nat)
    requires OccursAt(s, sub, k)
    requires forall p: nat :: p < k ==> !OccursAt(s, sub, p)
    ensures FindFrom(s, sub, 0) == Some(k)
  {
  }

  lemma FindFromNone(s: string, sub: string)
    requires forall p: nat :: !OccursAt(s, sub, p)
    ensures FindFrom(s, sub, 0) == None
  {
  }

  // ---------------------------------------------------------------- split and join

  /** `s.split(sep)` for a non-empty separator (Python refuses an empty one). */
  function SplitOn(s: string, sep: string): (parts: seq<string>)
    requires |sep| > 0
    ensures |parts| >= 1
    decreases |s|
  {
    match FindFrom(s, sep, 0)
    case None => [s]
    case Some(k) => [s[..k]] + SplitOn(s[k + |sep|..], sep)
  }

  /** `sep.join(parts)`. */
  function Join(parts: seq<string>, sep: string): string
  {
    if |parts| == 0 then ""
    else if |parts| == 1 then parts[0]
    else parts[0] + sep + Join(parts[1..], sep)
  }

  /** Joining one more part appends the separator and the part. */
  lemma {:induction false} JoinSnoc(parts: seq<string>, sep: string)
    requires |parts| > 1
    ensures Join(parts, sep) == Join(parts[..|parts| - 1], sep) + sep + parts[|parts| - 1]
    decreases |parts|
  {
    if |parts| > 2 {
      JoinSnoc(parts[1..], sep);
      assert parts[1..][..|parts[1..]| - 1] == parts[..|parts| - 1][1..];
    }
  }

  /** Joining the pieces of a split with the same separator gives back the text. */
  lemma {:induction false} JoinSplit(s: string, sep: string)
    requires |sep| > 0
    ensures Join(SplitOn(s, sep), sep) == s
    decreases |s|
  {
    match FindFrom(s, sep, 0)
    case None =>
    case Some(k) =>
      var rest := s[k + |sep|..];
      var parts := SplitOn(rest, sep);
      JoinSplit(rest, sep);
      assert SplitOn(s, sep) == [s[..k]] + parts;
      assert ([s[..k]] + parts)[1..] == parts;
      assert Join([s[..k]] + parts, sep) == s[..k] + sep + rest;
      assert s == s[..k] + sep + rest;
  }

  /** A text in which the separator never occurs is one piece. */
  lemma SplitNone(s: string, sep: string)
    requires |sep| > 0
    requires forall p: nat :: !OccursAt(s, sep, p)
    ensures SplitOn(s, sep) == [s]
  {
    FindFromNone(s, sep);
  }

  /** When the first occurrence of the separator is the one right after `x`, `x` is the first piece. */
  lemma SplitFirst(x: string, sep: string, y: string)
    requires |sep| > 0
    requires forall p: nat :: p < |x| ==> !OccursAt(x + sep + y, sep, p)
    ensures SplitOn(x + sep + y, sep) == [x] + SplitOn(y, sep)
  {
    var s := x + sep + y;
    assert s[|x|..|x| + |sep|] == sep;
    FindFromIs(s, sep, |x|);
    assert s[..|x|] == x;
    assert s[|x| + |sep|..] == y;
  }

  /** Unfolds a split whose first separator is at `k`. */
  lemma SplitAt(s: string, sep: string, k: nat)
    requires |sep| > 0 && FindFrom(s, sep, 0) == Some(k)
    ensures SplitOn(s, sep) == [s[..k]] + SplitOn(s[k + |sep|..], sep)
  {
  }

  /** Splitting on one character distributes over a concatenation joined by that character. */
  lemma {:induction false} SplitCharConcat(a: string, c: char, b: string)
    ensures SplitOn(a + [c] + b, [c]) == SplitOn(a, [c]) + SplitOn(b, [c])
    decreases |a|
  {
    match FindFrom(a, [c], 0)
    case None =>
      SplitCharFirst(a, c, b);
    case Some(k) =>
      SplitCharStep(a, c, b, k);
      SplitCharConcat(a[k + 1..], c, b);
      ConsConcat(a[..k], SplitOn(a[k + 1..], [c]), SplitOn(b, [c]));
  }

  /** Putting a piece in front commutes with appending pieces after. */
  lemma ConsConcat(x: string, ys: seq<string>, zs: seq<string>)
    ensures [x] + (ys + zs) == ([x] + ys) + zs
  {
  }

  /** When `a` holds no `c`, the `c` after it ends the first piece. */
  lemma SplitCharFirst(a: string, c: char, b: string)
    requires FindFrom(a, [c], 0).None?
    ensures SplitOn(a + [c] + b, [c]) == [a] + SplitOn(b, [c]) && SplitOn(a, [c]) == [a]
  {
    var s := a + [c] + b;
    forall p: nat | p < |a| ensures !OccursAt(s, [c], p) {
      assert !OccursAt(a, [c], p);
      assert s[p..p + 1] == a[p..p + 1];
    }
    SplitFirst(a, [c], b);
  }

  /** When the first `c` of `a` is at `k`, both splits start with `a[..k]`. */
  lemma SplitCharStep(a: string, c: char, b: string, k: nat)
    requires FindFrom(a, [c], 0) == Some(k)
    ensures k < |a|
    ensures SplitOn(a + [c] + b, [c]) == [a[..k]] + SplitOn(a[k + 1..] + [c] + b, [c])
    ensures SplitOn(a, [c]) == [a[..k]] + SplitOn(a[k + 1..], [c])
  {
    var s := a + [c] + b;
    forall p: nat | p < k ensures !OccursAt(s, [c], p) {
      assert !OccursAt(a, [c], p);
      assert s[p..p + 1] == a[p..p + 1];
    }
    assert s[k..k + 1] == a[k..k + 1];
    FindFromIs(s, [c], k);
    SplitAt(s, [c], k);
    SplitAt(a, [c], k);
    assert s[k + 1..] == a[k + 1..] + [c] + b;
    assert s[..k] == a[..k];
  }

  /** Splitting on newlines peels off a first line that has none. */
  lemma SplitLine(a: string, b: string)
    requires '\n' !in a
    ensures SplitOn(a + ("\n" + b), "\n") == [a] + SplitOn(b, "\n")
  {
    assert a + ("\n" + b) == a + ['\n'] + b;
    SplitCharConcat(a, '\n', b);
    SplitCharNone(a, '\n');
  }

  /** A text without the character is one piece. */
  lemma SplitCharNone(s: string, c: char)
    requires c !in s
    ensures SplitOn(s, [c]) == [s]
  {
    forall p: nat ensures !OccursAt(s, [c], p) {
      if p + 1 <= |s| {
        assert s[p] in s;
        assert s[p..p + 1] == [s[p]];
      }
    }
    SplitNone(s, [c]);
  }

  // ---------------------------------------------------------------- strip

  /** `c.isspace()`: Python's whitespace characters. */
  predicate IsSpace(c: char)
  {
    ('\t' <= c <= '\r') || ('\U{1C}' <= c <= ' ') || c == '\U{85}' || c == '\U{A0}' ||
    c == '\U{1680}' || ('\U{2000}' <= c <= '\U{200A}') || c == '\U{2028}' || c == '\U{2029}' ||
    c == '\U{202F}' || c == '\U{205F}' || c == '\U{3000}'
  }

  predicate AllSpace(s: string) { forall i :: 0 <= i < |s| ==> IsSpace(s[i]) }

  function LStrip(s: string): (r: string)
    ensures r == [] || !IsSpace(r[0])
  {
    if s != [] && IsSpace(s[0]) then LStrip(s[1..]) else s
  }

  function RStrip(s: string): (r: string)
    ensures r == [] || !IsSpace(r[|r| - 1])
  {
    if s != [] && IsSpace(s[|s| - 1]) then RStrip(s[..|s| - 1]) else s
  }

  /** `s.strip()`: the text without leading and trailing whitespace. */
  function Strip(s: string): (r: string)
  {
    RStrip(LStrip(s))
  }

  /** A text that neither starts nor ends with whitespace is its own `strip()`. */
  predicate IsStripped(s: string)
  {
    s == [] || (!IsSpace(s[0]) && !IsSpace(s[|s| - 1]))
  }

  lemma {:induction false} LStripAppend(s: string, t: string)
    ensures LStrip(s + t) == if AllSpace(s) then LStrip(t) else LStrip(s) + t
    decreases |s|
  {
    if s != [] {
      assert (s + t)[0] == s[0];
      if IsSpace(s[0]) {
        assert (s + t)[1..] == s[1..] + t;
        LStripAppend(s[1..], t);
        assert AllSpace(s) == AllSpace(s[1..]) by {
          if AllSpace(s[1..]) {
            forall i | 0 <= i < |s| ensures IsSpace(s[i]) {
              if i > 0 { assert s[i] == s[1..][i - 1]; }
            }
          }
        }
      }
    } else {
      assert s + t == t;
    }
  }

  lemma {:induction false} RStripAppendSpace(s: string, ws: string)
    requires AllSpace(ws)
    ensures RStrip(s + ws) == RStrip(s)
    decreases |ws|
  {
    if ws == [] {
      assert s + ws == s;
    } else {
      var w := ws[..|ws| - 1];
      assert (s + ws)[..|s + ws| - 1] == s + w;
      RStripAppendSpace(s, w);
    }
  }

  lemma {:induction false} RStripFixed(s: string)
    requires s == [] || !IsSpace(s[|s| - 1])
    ensures RStrip(s) == s
  {
  }

  /** Whitespace around a text does not change its `strip()`. */
  lemma StripSurrounded(ws1: string, s: string, ws2: string)
    requires AllSpace(ws1) && AllSpace(ws2)
    ensures Strip(ws1 + s + ws2) == Strip(s)
  {
    assert ws1 + s + ws2 == ws1 + (s + ws2);
    LStripAppend(ws1, s + ws2);
    LStripAppend(s, ws2);
    if AllSpace(s) {
      LStripAppend(s, []);
      assert s + [] == s;
      assert LStrip(ws2) == [] by { LStripAppend(ws2, []); assert ws2 + [] == ws2; }
    } else {
      RStripAppendSpace(LStrip(s), ws2);
    }
  }

  /** A stripped text is its own `strip()`. */
  lemma StripOfStripped(s: string)
    requires IsStripped(s)
    ensures Strip(s) == s
  {
  }

  /** `s.rstrip(c)` for a single character `c`. */
  function RStripChar(s: string, c: char): (r: string)
    ensures r == [] || r[|r| - 1] != c
  {
    if s != [] && s[|s| - 1] == c then RStripChar(s[..|s| - 1], c) else s
  }

  /** `p.split('/')[-1] if '/' in p else p`: the last `/`-separated component. */
  function LastComponent(p: string): string
  {
    if Contains(p, "/") then
      var parts := SplitOn(p, "/");
      parts[|parts| - 1]
    else p
  }

  /** A rule line: `"=" * n`. */
  function Rule(n: nat): (r: string)
    ensures |r| == n && forall i :: 0 <= i < n ==> r[i] == '='
  {
    seq(n, _ => '=')
  }

  // ---------------------------------------------------------------- reading a text file

  /** What `open(path, 'r')` reads from a file holding `s`: universal newlines turn
      `\r\n` and a lone `\r` into `\n`. */
  function Newlines(s: string): string
  {
    if s == [] then [] else ReadChar(s[0], s[1..]) + Newlines(s[1..])
  }

  /** What one character reads as, given the text after it: a `\r` becomes `\n`, or
      nothing when a `\n` follows it; any other character stays. */
  function ReadChar(c: char, next: string): string
  {
    if c != '\r' then [c] else if next != [] && next[0] == '\n' then [] else "\n"
  }

  /** No carriage return survives the read. */
  lemma {:induction false} NewlinesNoCr(s: string)
    ensures '\r' !in Newlines(s)
  {
    if s != [] {
      NewlinesNoCr(s[1..]);
    }
  }

  /** A text without a carriage return is read back as written. */
  lemma {:induction false} NewlinesPlain(s: string)
    requires '\r' !in s
    ensures Newlines(s) == s
    decreases |s|
  {
    if s != [] {
      assert s[0] != '\r' by {
        assert s[0] in s;
      }
      assert '\r' !in s[1..] by {
        forall i | 0 <= i < |s[1..]| ensures s[1..][i] != '\r' {
          assert s[1..][i] == s[i + 1] && s[i + 1] in s;
        }
      }
      NewlinesPlain(s[1..]);
    }
  }

  /** Reading two texts written one after the other gives the two readings one after
      the other, unless a `\r` ending the first meets a `\n` starting the second. */
  lemma {:induction false} NewlinesAppend(a: string, b: string)
    requires a == [] || a[|a| - 1] != '\r' || b == [] || b[0] != '\n'
    ensures Newlines(a + b) == Newlines(a) + Newlines(b)
    decreases |a|
  {
    if a == [] {
      assert a + b == b;
    } else {
      assert a[1..] == [] || a[1..][|a[1..]| - 1] == a[|a| - 1];
      NewlinesAppend(a[1..], b);
      NewlinesAppendStep(a, b);
    }
  }

  /** One step of `NewlinesAppend`: the first character of `a`. */
  lemma NewlinesAppendStep(a: string, b: string)
    requires a != [] && (|a| > 1 || a[0] != '\r' || b == [] || b[0] != '\n')
    requires Newlines(a[1..] + b) == Newlines(a[1..]) + Newlines(b)
    ensures Newlines(a + b) == Newlines(a) + Newlines(b)
  {
    NewlinesHead(a, b);
    ReadCharBefore(a[0], a[1..], b);
    Associative(ReadChar(a[0], a[1..]), Newlines(a[1..]), Newlines(b));
  }

  /** Concatenation is associative. */
  lemma Associative(x: string, y: string, z: string)
    ensures x + (y + z) == (x + y) + z
  {
  }

  /** The first character of `a` is read first when `b` follows `a`. */
  lemma NewlinesHead(a: string, b: string)
    requires a != []
    ensures Newlines(a + b) == ReadChar(a[0], a[1..] + b) + Newlines(a[1..] + b)
  {
    assert (a + b)[0] == a[0] && (a + b)[1..] == a[1..] + b;
  }

  /** The first character of `t` decides what `c` reads as, whatever follows `t`. */
  lemma ReadCharBefore(c: char, t: string, b: string)
    requires t != [] || c != '\r' || b == [] || b[0] != '\n'
    ensures ReadChar(c, t + b) == ReadChar(c, t)
  {
    if t != [] {
      assert (t + b)[0] == t[0];
    } else {
      assert t + b == b;
    }
  }

  /** A character other than `\r` is read as itself. */
  lemma NewlinesChar(c: char, t: string)
    requires c != '\r'
    ensures Newlines([c] + t) == [c] + Newlines(t)
  {
    assert ([c] + t)[1..] == t;
  }

  /** An old Mac line end, a `\r` not followed by `\n`, is read as `\n`. */
  lemma NewlinesCr(t: string)
    requires t == [] || t[0] != '\n'
    ensures Newlines("\r" + t) == "\n" + Newlines(t)
  {
    assert ("\r" + t)[1..] == t;
  }

  /** A Windows line end, `\r\n`, is read as one `\n`. */
  lemma NewlinesCrLf(t: string)
    ensures Newlines("\r\n" + t) == "\n" + Newlines(t)
  {
    assert ("\r\n" + t)[2..] == t;
  }

  /** The text without one final carriage return. */
  function DropCr(s: string): (r: string)
    ensures s == r || s == r + "\r"
  {
    if s != [] && s[|s| - 1] == '\r' then s[..|s| - 1] else s
  }

  /** A text followed by a line break reads as the text without a final `\r` (which
      merges with that line break), the line break, and the rest as read. */
  lemma NewlinesBeforeBreak(s: string, b: string)
    ensures Newlines(s + ("\n" + b)) == Newlines(DropCr(s)) + ("\n" + Newlines(b))
  {
    if s != [] && s[|s| - 1] == '\r' {
      assert s + ("\n" + b) == DropCr(s) + ("\r\n" + b);
      NewlinesAppend(DropCr(s), "\r\n" + b);
      NewlinesCrLf(b);
    } else {
      NewlinesAppend(s, "\n" + b);
      NewlinesChar('\n', b);
    }
  }

  /** A text reads as the text without a final `\r`, then the line break that `\r`
      becomes. */
  lemma NewlinesDropCr(s: string)
    ensures Newlines(s) == Newlines(DropCr(s)) + (if s == DropCr(s) then "" else "\n")
  {
    if s != DropCr(s) {
      NewlinesAppend(DropCr(s), "\r");
      assert Newlines("\r") == "\n";
    }
  }

  /** A text after one without a carriage return and followed by a line break: the
      head is read as written, a final `\r` of the middle merges with the line break. */
  lemma NewlinesThrough(head: string, mid: string, tail: string)
    requires '\r' !in head
    ensures Newlines(head + (mid + ("\n" + tail))) == head + (Newlines(DropCr(mid)) + ("\n" + Newlines(tail)))
  {
    assert head == [] || head[|head| - 1] in head;
    NewlinesAppend(head, mid + ("\n" + tail));
    NewlinesPlain(head);
    NewlinesBeforeBreak(mid, tail);
  }

  /** A text between two texts without a carriage return, followed by a line break:
      only the middle one changes when read. */
  lemma NewlinesAround(head: string, mid: string, tail: string)
    requires '\r' !in head && '\r' !in tail
    ensures Newlines(head + (mid + ("\n" + tail))) == head + (Newlines(DropCr(mid)) + ("\n" + tail))
  {
    NewlinesThrough(head, mid, tail);
    NewlinesPlain(tail);
  }

  /** Dropping a final `\r` before reading leaves the lines of the reading but the last
      (empty) one, and the same stripped text. */
  lemma ReadWithoutFinalCr(s: string)
    ensures var read := Newlines(DropCr(s));
            (forall i :: 0 <= i < |SplitOn(read, "\n")| ==>
               i < |SplitOn(Newlines(s), "\n")| && SplitOn(read, "\n")[i] == SplitOn(Newlines(s), "\n")[i]) &&
            Strip(read) == Strip(Newlines(s))
  {
    NewlinesDropCr(s);
    if s != DropCr(s) {
      BreakAfter(Newlines(DropCr(s)));
    }
  }

  /** A final line break adds one empty last line and does not change the `strip()`. */
  lemma BreakAfter(x: string)
    ensures SplitOn(x + "\n", "\n") == SplitOn(x, "\n") + [""]
    ensures Strip(x + "\n") == Strip(x)
  {
    assert x + "\n" == x + ['\n'] + "";
    SplitCharConcat(x, '\n', "");
    StripSurrounded("", x, "\n");
    assert "" + x + "\n" == x + "\n";
  }

  /** The decimal text of a number holds digits only. */
  lemma DigitsOnly(n: nat)
    ensures '\n' !in NatToString(n) && '\r' !in NatToString(n)
  {
    var s := NatToString(n);
    forall i | 0 <= i < |s| ensures s[i] != '\n' && s[i] != '\r' {
      assert IsDigit(s[i]);
    }
  }}
