/** Path parsing: the natural sort key, the year and year-month classifiers of a
    Drive path, and the two grouping passes over a Drive listing. */
module Parsers {
  import opened Seqs
  import opened Text
  import opened Records
  import opened Grouping

  // ---------------------------------------------------------------- natural sort key

  predicate NoDigits(s: string) { forall i :: 0 <= i < |s| ==> !IsDigit(s[i]) }

  /** Length of the longest prefix of `s` without a digit. */
  function NonDigitRun(s: string): (n: nat)
    ensures n <= |s| && NoDigits(s[..n]) && (n < |s| ==> IsDigit(s[n]))
  {
    if s == [] || IsDigit(s[0]) then 0
    else
      var k := NonDigitRun(s[1..]);
      assert s[..k + 1] == [s[0]] + s[1..][..k];
      k + 1
  }

  /** Length of the longest prefix of `s` made of digits. */
  function DigitRun(s: string): (n: nat)
    ensures n <= |s| && AllDigits(s[..n]) && (n < |s| ==> !IsDigit(s[n]))
  {
    if s == [] || !IsDigit(s[0]) then 0
    else
      var k := DigitRun(s[1..]);
      assert s[..k + 1] == [s[0]] + s[1..][..k];
      k + 1
  }

  lemma {:induction false} NonDigitRunOf(a: string, b: string)
    requires NoDigits(a) && (b == [] || IsDigit(b[0]))
    ensures NonDigitRun(a + b) == |a|
    decreases |a|
  {
    if a == [] {
      assert a + b == b;
    } else {
      assert (a + b)[1..] == a[1..] + b;
      assert NoDigits(a[1..]) by {
        forall i | 0 <= i < |a[1..]| ensures !IsDigit(a[1..][i]) {
          assert a[1..][i] == a[i + 1];
        }
      }
      NonDigitRunOf(a[1..], b);
    }
  }

  lemma {:induction false} DigitRunOf(a: string, b: string)
    requires AllDigits(a) && (b == [] || !IsDigit(b[0]))
    ensures DigitRun(a + b) == |a|
    decreases |a|
  {
    if a == [] {
      assert a + b == b;
    } else {
      assert (a + b)[1..] == a[1..] + b;
      assert AllDigits(a[1..]) by {
        forall i | 0 <= i < |a[1..]| ensures IsDigit(a[1..][i]) {
          assert a[1..][i] == a[i + 1];
        }
      }
      DigitRunOf(a[1..], b);
    }
  }

  /** `re.split(r'(\d+)', s)`: text and digit runs alternately, starting and ending with text. */
  function SplitDigitRuns(s: string): (parts: seq<string>)
    ensures |parts| % 2 == 1
    ensures s != [] && !IsDigit(s[0]) ==> parts[0] != []
    decreases |s|
  {
    var n := NonDigitRun(s);
    if n == |s| then
      [s]
    else
      var d := DigitRun(s[n..]);
      [s[..n], s[n..n + d]] + SplitDigitRuns(s[n + d..])
  }

  /** The shape of a split with one capturing group around `\d+`: text at the even
      positions, non-empty digit runs at the odd ones, and the runs maximal, so every
      text part between two runs is non-empty. */
  predicate DigitRunParts(parts: seq<string>)
  {
    |parts| % 2 == 1 &&
    (forall i :: 0 <= i < |parts| && i % 2 == 0 ==> NoDigits(parts[i])) &&
    (forall i :: 0 <= i < |parts| && i % 2 == 1 ==> parts[i] != [] && AllDigits(parts[i])) &&
    (forall i :: 0 < i < |parts| - 1 && i % 2 == 0 ==> parts[i] != [])
  }

  lemma DigitRunPartsCons(a: string, d: string, rest: seq<string>)
    requires NoDigits(a) && d != [] && AllDigits(d) && DigitRunParts(rest)
    requires |rest| > 1 ==> rest[0] != []
    ensures DigitRunParts([a, d] + rest)
  {
    var parts := [a, d] + rest;
    assert forall i :: 2 <= i < |parts| ==> parts[i] == rest[i - 2];
  }

  lemma DigitRunPartsTail(parts: seq<string>)
    requires DigitRunParts(parts) && |parts| > 1
    ensures NoDigits(parts[0]) && parts[1] != [] && AllDigits(parts[1])
    ensures DigitRunParts(parts[2..]) && (|parts| > 3 ==> parts[2] != [])
  {
    assert forall i :: 0 <= i < |parts[2..]| ==> parts[2..][i] == parts[i + 2];
  }

  lemma FlattenPair(a: string, d: string, rest: seq<string>)
    ensures Flatten([a, d] + rest) == a + d + Flatten(rest)
  {
    var parts := [a, d] + rest;
    assert parts[1..] == [d] + rest;
    assert parts[1..][1..] == rest;
  }

  /** The split has that shape. */
  lemma {:induction false} SplitDigitRunsParts(s: string)
    ensures DigitRunParts(SplitDigitRuns(s))
    decreases |s|
  {
    var n := NonDigitRun(s);
    if n == |s| {
      assert s[..n] == s;
      assert SplitDigitRuns(s) == [s];
    } else {
      var d := DigitRun(s[n..]);
      var t := s[n + d..];
      var rest := SplitDigitRuns(t);
      assert SplitDigitRuns(s) == [s[..n], s[n..n + d]] + rest;
      SplitDigitRunsParts(t);
      assert s[n..][..d] == s[n..n + d];
      assert |rest| > 1 ==> t != [];
      assert t != [] ==> t[0] == s[n..][d];
      DigitRunPartsCons(s[..n], s[n..n + d], rest);
    }
  }

  /** A string with a digit splits into its leading text, its first digit run and the
      split of the rest. */
  lemma SplitDigitRunsCons(s: string) returns (a: string, d: string, t: string)
    requires NonDigitRun(s) < |s|
    ensures s == a + d + t && |t| < |s|
    ensures SplitDigitRuns(s) == [a, d] + SplitDigitRuns(t)
  {
    var n := NonDigitRun(s);
    var k := DigitRun(s[n..]);
    a, d, t := s[..n], s[n..n + k], s[n + k..];
    assert s[n..][..k] == d;
  }

  /** The split loses nothing: its parts concatenate back to `s`. */
  lemma {:induction false} SplitDigitRunsFlatten(s: string)
    ensures Flatten(SplitDigitRuns(s)) == s
    decreases |s|
  {
    if NonDigitRun(s) == |s| {
      assert s[..|s|] == s;
      assert Flatten([s]) == s + Flatten([]);
    } else {
      var a, d, t := SplitDigitRunsCons(s);
      SplitDigitRunsFlatten(t);
      FlattenPair(a, d, SplitDigitRuns(t));
    }
  }

  /** The split has that shape and loses nothing. */
  lemma SplitDigitRunsShape(s: string)
    ensures DigitRunParts(SplitDigitRuns(s))
    ensures Flatten(SplitDigitRuns(s)) == s
  {
    SplitDigitRunsParts(s);
    SplitDigitRunsFlatten(s);
  }

  /** Conversely, any decomposition of `s` with that shape is the split: the shape
      determines `re.split`'s result. */
  lemma {:induction false} SplitDigitRunsUnique(s: string, parts: seq<string>)
    requires DigitRunParts(parts) && Flatten(parts) == s
    ensures SplitDigitRuns(s) == parts
    decreases |parts|
  {
    if |parts| == 1 {
      assert s == parts[0] + Flatten([]);
      assert s + [] == s;
      NonDigitRunOf(s, []);
    } else {
      var a, d, rest := parts[0], parts[1], parts[2..];
      DigitRunPartsTail(parts);
      FlattenPair(a, d, rest);
      assert parts == [a, d] + rest;
      var t := Flatten(rest);
      assert t == [] || !IsDigit(t[0]) by {
        assert t == rest[0] + Flatten(rest[1..]);
        if |rest| > 1 {
          assert t[0] == rest[0][0];
        } else {
          assert t == rest[0] + Flatten([]);
          if rest[0] != [] {
            assert t[0] == rest[0][0];
          }
        }
      }
      assert s == a + (d + t);
      NonDigitRunOf(a, d + t);
      DigitRunOf(d, t);
      assert s[|a|..] == d + t;
      assert s[|a|..][..|d|] == d;
      assert s[|a|..|a| + |d|] == d;
      assert s[|a| + |d|..] == t;
      SplitDigitRunsUnique(t, rest);
    }
  }

  /** One element of a natural sort key: lower-cased text or the value of a digit run. */
  datatype KeyPart = Chunk(text: string) | Number(value: nat)

  /** `int(part) if part.isdigit() else part.lower()`. */
  function Convert(part: string): KeyPart
  {
    if part != [] && AllDigits(part) then Number(DigitsValue(part)) else Chunk(Lower(part))
  }

  /** `natural_sort_key(text)`: lower-cased text and digit-run values alternate, starting
      and ending with text. */
  function NaturalKey(s: string): (key: seq<KeyPart>)
    ensures var parts := SplitDigitRuns(s);
      DigitRunParts(parts) && |key| == |parts| &&
      forall i :: 0 <= i < |key| ==>
        key[i] == if i % 2 == 0 then Chunk(Lower(parts[i])) else Number(DigitsValue(parts[i]))
  {
    var parts := SplitDigitRuns(s);
    SplitDigitRunsShape(s);
    assert forall i :: 0 <= i < |parts| && i % 2 == 0 && parts[i] != [] ==> !IsDigit(parts[i][0]);
    seq(|parts|, i requires 0 <= i < |parts| => Convert(parts[i]))
  }

  /** Python's `a < b` on strings: the first differing code point decides, a proper prefix is smaller. */
  predicate StrLess(a: string, b: string)
    decreases |a|
  {
    if a == [] then b != []
    else if b == [] then false
    else if a[0] != b[0] then a[0] < b[0]
    else StrLess(a[1..], b[1..])
  }

  /** Comparison of two key elements. Text against number never happens between two
      natural keys (both alternate from the same side); it is fixed here as text first. */
  predicate PartLess(x: KeyPart, y: KeyPart)
  {
    match (x, y)
    case (Chunk(a), Chunk(b)) => StrLess(a, b)
    case (Number(a), Number(b)) => a < b
    case (Chunk(_), Number(_)) => true
    case (Number(_), Chunk(_)) => false
  }

  /** Python's `a < b` on lists: the first differing element decides, a proper prefix is smaller. */
  predicate KeyLess(a: seq<KeyPart>, b: seq<KeyPart>)
    decreases |a|
  {
    if a == [] then b != []
    else if b == [] then false
    else if a[0] != b[0] then PartLess(a[0], b[0])
    else KeyLess(a[1..], b[1..])
  }

  lemma {:induction false} StrLessStrictTotal(a: string, b: string)
    ensures !StrLess(a, a)
    ensures a == b || StrLess(a, b) || StrLess(b, a)
    ensures !(StrLess(a, b) && StrLess(b, a))
    decreases |a|
  {
    if a != [] {
      StrLessStrictTotal(a[1..], a[1..]);
      if b != [] {
        StrLessStrictTotal(a[1..], b[1..]);
        if a[0] == b[0] && a[1..] == b[1..] {
          assert a == [a[0]] + a[1..] && b == [b[0]] + b[1..];
        }
      }
    }
  }

  lemma {:induction false} StrLessTransitive(a: string, b: string, c: string)
    requires StrLess(a, b) && StrLess(b, c)
    ensures StrLess(a, c)
    decreases |a|
  {
    if a != [] && a[0] == b[0] && b[0] == c[0] {
      StrLessTransitive(a[1..], b[1..], c[1..]);
    }
  }

  lemma PartLessStrictTotal(x: KeyPart, y: KeyPart)
    ensures !PartLess(x, x)
    ensures x == y || PartLess(x, y) || PartLess(y, x)
    ensures !(PartLess(x, y) && PartLess(y, x))
  {
    match (x, y)
    case (Chunk(a), Chunk(b)) =>
      StrLessStrictTotal(a, b);
    case (Chunk(a), Number(_)) =>
      StrLessStrictTotal(a, a);
    case (Number(_), Chunk(b)) =>
      StrLessStrictTotal(b, b);
    case (Number(_), Number(_)) =>
  }

  lemma PartLessTransitive(x: KeyPart, y: KeyPart, z: KeyPart)
    requires PartLess(x, y) && PartLess(y, z)
    ensures PartLess(x, z)
  {
    if x.Chunk? && y.Chunk? && z.Chunk? {
      StrLessTransitive(x.text, y.text, z.text);
    }
  }

  /** The key order is a strict total order, so sorting by it is well defined. */
  lemma {:induction false} KeyLessStrictTotal(a: seq<KeyPart>, b: seq<KeyPart>)
    ensures !KeyLess(a, a)
    ensures a == b || KeyLess(a, b) || KeyLess(b, a)
    ensures !(KeyLess(a, b) && KeyLess(b, a))
    decreases |a|
  {
    if a != [] {
      KeyLessStrictTotal(a[1..], a[1..]);
      if b != [] {
        KeyLessStrictTotal(a[1..], b[1..]);
        PartLessStrictTotal(a[0], b[0]);
        if a[0] == b[0] && a[1..] == b[1..] {
          assert a == [a[0]] + a[1..] && b == [b[0]] + b[1..];
        }
      }
    }
  }

  lemma {:induction false} KeyLessTransitive(a: seq<KeyPart>, b: seq<KeyPart>, c: seq<KeyPart>)
    requires KeyLess(a, b) && KeyLess(b, c)
    ensures KeyLess(a, c)
    decreases |a|
  {
    if a != [] && b != [] && c != [] {
      if a[0] == b[0] && b[0] == c[0] {
        KeyLessTransitive(a[1..], b[1..], c[1..]);
      } else if a[0] == b[0] {
        PartLessStrictTotal(a[0], c[0]);
      } else if b[0] == c[0] {
        PartLessStrictTotal(a[0], c[0]);
      } else {
        PartLessTransitive(a[0], b[0], c[0]);
        PartLessStrictTotal(a[0], c[0]);
      }
    }
  }

  /** The name of a month folder, `<year>年<month>月`. */
  function MonthFolder(y: string, m: string): string { y + "年" + m + "月" }

  /** The split of a month folder name. */
  lemma SplitMonthFolder(y: string, m: string)
    requires y != [] && AllDigits(y) && m != [] && AllDigits(m)
    ensures SplitDigitRuns(MonthFolder(y, m)) == ["", y, "年", m, "月"]
  {
    var parts := ["", y, "年", m, "月"];
    assert DigitRunParts(parts) by {
      assert NoDigits("年") && NoDigits("月") && NoDigits("");
    }
    assert Flatten(parts) == MonthFolder(y, m) by {
      assert Flatten(parts[4..]) == "月" + Flatten(parts[5..]);
      assert Flatten(parts[3..]) == m + Flatten(parts[4..]);
      assert Flatten(parts[2..]) == "年" + Flatten(parts[3..]);
      assert Flatten(parts[1..]) == y + Flatten(parts[2..]);
      assert Flatten(parts) == "" + Flatten(parts[1..]);
    }
    SplitDigitRunsUnique(MonthFolder(y, m), parts);
  }

  lemma MonthFolderKey(y: string, m: string)
    requires y != [] && AllDigits(y) && m != [] && AllDigits(m)
    ensures NaturalKey(MonthFolder(y, m)) == [Chunk(""), Number(DigitsValue(y)), Chunk("年"), Number(DigitsValue(m)), Chunk("月")]
  {
    SplitMonthFolder(y, m);
    var parts := SplitDigitRuns(MonthFolder(y, m));
    var k := NaturalKey(MonthFolder(y, m));
    assert Lower("") == "";
    assert Lower("年") == "年" by {
      assert Lower("年")[0] == '年';
    }
    assert Lower("月") == "月" by {
      assert Lower("月")[0] == '月';
    }
    assert k[0] == Chunk(Lower(parts[0]));
    assert k[1] == Number(DigitsValue(parts[1]));
    assert k[2] == Chunk(Lower(parts[2]));
    assert k[3] == Number(DigitsValue(parts[3]));
    assert k[4] == Chunk(Lower(parts[4]));
  }

  /** Month folders of one year are ordered by the month's value, not by its digits. */
  lemma MonthFolderOrder(y: string, m1: string, m2: string)
    requires y != [] && AllDigits(y) && m1 != [] && AllDigits(m1) && m2 != [] && AllDigits(m2)
    ensures KeyLess(NaturalKey(MonthFolder(y, m1)), NaturalKey(MonthFolder(y, m2))) <==> DigitsValue(m1) < DigitsValue(m2)
  {
    MonthFolderKey(y, m1);
    MonthFolderKey(y, m2);
    var p := [Chunk(""), Number(DigitsValue(y)), Chunk("年")];
    var t1 := [Number(DigitsValue(m1)), Chunk("月")];
    var t2 := [Number(DigitsValue(m2)), Chunk("月")];
    assert NaturalKey(MonthFolder(y, m1)) == p + t1;
    assert NaturalKey(MonthFolder(y, m2)) == p + t2;
    KeyLessCommonPrefix(p, t1, t2);
    assert t1[1..] == t2[1..];
    KeyLessStrictTotal(t1[1..], t1[1..]);
  }

  /** The order promised for month folders: 1 before 2 before 10, where plain string
      order puts 10 before 2. */
  lemma NaturalOrderOfMonths()
    ensures KeyLess(NaturalKey(MonthFolder("2024", "1")), NaturalKey(MonthFolder("2024", "2")))
    ensures KeyLess(NaturalKey(MonthFolder("2024", "2")), NaturalKey(MonthFolder("2024", "10")))
  {
    assert DigitsValue("10") == 10 by {
      assert "10"[..1] == "1";
    }
    MonthFolderOrder("2024", "1", "2");
    MonthFolderOrder("2024", "2", "10");
  }

  /** Plain string order, by contrast, puts month 10 before month 2. */
  lemma PlainOrderOfMonths()
    ensures StrLess(MonthFolder("2024", "10"), MonthFolder("2024", "2"))
  {
    var p := "2024年";
    assert MonthFolder("2024", "10") == p + "10月";
    assert MonthFolder("2024", "2") == p + "2月";
    StrLessCommonPrefix(p, "10月", "2月");
  }

  lemma {:induction false} StrLessCommonPrefix(p: string, a: string, b: string)
    ensures StrLess(p + a, p + b) == StrLess(a, b)
    decreases |p|
  {
    if p != [] {
      assert (p + a)[1..] == p[1..] + a && (p + b)[1..] == p[1..] + b;
      StrLessCommonPrefix(p[1..], a, b);
    } else {
      assert p + a == a && p + b == b;
    }
  }

  /** A common prefix does not change the comparison. */
  lemma {:induction false} KeyLessCommonPrefix(p: seq<KeyPart>, a: seq<KeyPart>, b: seq<KeyPart>)
    ensures KeyLess(p + a, p + b) == KeyLess(a, b)
    decreases |p|
  {
    if p != [] {
      assert (p + a)[1..] == p[1..] + a && (p + b)[1..] == p[1..] + b;
      KeyLessCommonPrefix(p[1..], a, b);
    } else {
      assert p + a == a && p + b == b;
    }
  }

  // ---------------------------------------------------------------- sorting by natural key

  /** Inserts `x` behind every element whose key is not greater than its own. */
  function InsertByKey<T>(x: T, s: seq<T>, key: T -> seq<KeyPart>): seq<T>
  {
    if s == [] then [x]
    else if KeyLess(key(x), key(s[0])) then [x] + s
    else [s[0]] + InsertByKey(x, s[1..], key)
  }

  /** `list.sort(key=...)`, which is stable; insertion behind equal keys is stable too. */
  function SortByKey<T>(xs: seq<T>, key: T -> seq<KeyPart>): seq<T>
  {
    if xs == [] then []
    else InsertByKey(xs[|xs| - 1], SortByKey(xs[..|xs| - 1], key), key)
  }

  predicate SortedByKey<T>(s: seq<T>, key: T -> seq<KeyPart>)
  {
    forall i, j :: 0 <= i < j < |s| ==> !KeyLess(key(s[j]), key(s[i]))
  }

  /** No key in `s` is below `k`. */
  predicate NotBelow<T>(s: seq<T>, key: T -> seq<KeyPart>, k: seq<KeyPart>)
  {
    forall i :: 0 <= i < |s| ==> !KeyLess(key(s[i]), k)
  }

  /** The elements whose key is `k`, in order. */
  function WithKey<T>(s: seq<T>, key: T -> seq<KeyPart>, k: seq<KeyPart>): seq<T>
  {
    if s == [] then []
    else (if key(s[0]) == k then [s[0]] else []) + WithKey(s[1..], key, k)
  }

  lemma KeyLessStep(a: seq<KeyPart>, b: seq<KeyPart>, c: seq<KeyPart>)
    requires KeyLess(a, b) && !KeyLess(c, b)
    ensures !KeyLess(c, a)
  {
    if KeyLess(c, a) {
      KeyLessTransitive(c, a, b);
    }
  }

  lemma SortedTail<T>(s: seq<T>, key: T -> seq<KeyPart>)
    requires s != [] && SortedByKey(s, key)
    ensures SortedByKey(s[1..], key) && NotBelow(s[1..], key, key(s[0]))
  {
    assert forall i :: 0 <= i < |s[1..]| ==> s[1..][i] == s[i + 1];
  }

  lemma ConsSorted<T>(h: T, t: seq<T>, key: T -> seq<KeyPart>)
    requires SortedByKey(t, key) && NotBelow(t, key, key(h))
    ensures SortedByKey([h] + t, key)
  {
    assert forall i :: 0 < i < |[h] + t| ==> ([h] + t)[i] == t[i - 1];
  }

  lemma {:induction false} InsertNotBelow<T>(x: T, s: seq<T>, key: T -> seq<KeyPart>, k: seq<KeyPart>)
    requires NotBelow(s, key, k) && !KeyLess(key(x), k)
    ensures NotBelow(InsertByKey(x, s, key), key, k)
    decreases |s|
  {
    if s != [] && !KeyLess(key(x), key(s[0])) {
      assert NotBelow(s[1..], key, k) by {
        assert forall i :: 0 <= i < |s[1..]| ==> s[1..][i] == s[i + 1];
      }
      InsertNotBelow(x, s[1..], key, k);
      var r := InsertByKey(x, s, key);
      assert forall i :: 0 < i < |r| ==> r[i] == InsertByKey(x, s[1..], key)[i - 1];
    }
  }

  lemma {:induction false} InsertByKeySorted<T>(x: T, s: seq<T>, key: T -> seq<KeyPart>)
    requires SortedByKey(s, key)
    ensures SortedByKey(InsertByKey(x, s, key), key)
    decreases |s|
  {
    if s == [] {
    } else if KeyLess(key(x), key(s[0])) {
      forall j | 0 <= j < |s| ensures !KeyLess(key(s[j]), key(x)) {
        if j == 0 {
          KeyLessStrictTotal(key(x), key(s[0]));
        } else {
          KeyLessStep(key(x), key(s[0]), key(s[j]));
        }
      }
      ConsSorted(x, s, key);
    } else {
      SortedTail(s, key);
      InsertByKeySorted(x, s[1..], key);
      InsertNotBelow(x, s[1..], key, key(s[0]));
      ConsSorted(s[0], InsertByKey(x, s[1..], key), key);
    }
  }

  lemma {:induction false} InsertByKeyPermutes<T>(x: T, s: seq<T>, key: T -> seq<KeyPart>)
    ensures multiset(InsertByKey(x, s, key)) == multiset(s) + multiset{x}
    decreases |s|
  {
    if s != [] && !KeyLess(key(x), key(s[0])) {
      InsertByKeyPermutes(x, s[1..], key);
      assert s == [s[0]] + s[1..];
    }
  }

  /** In a key-sorted list whose first key is above `k`, no element has key `k`. */
  lemma {:induction false} WithKeyNone<T>(s: seq<T>, key: T -> seq<KeyPart>, k: seq<KeyPart>)
    requires s != [] && SortedByKey(s, key) && KeyLess(k, key(s[0]))
    ensures WithKey(s, key, k) == []
    decreases |s|
  {
    KeyLessStrictTotal(k, key(s[0]));
    if |s| > 1 {
      SortedTail(s, key);
      assert s[1..][0] == s[1];
      KeyLessStep(k, key(s[0]), key(s[1]));
      KeyLessStrictTotal(k, key(s[1]));
      WithKeyNone(s[1..], key, k);
    }
  }

  lemma WithKeyCons<T>(h: T, t: seq<T>, key: T -> seq<KeyPart>, k: seq<KeyPart>)
    ensures WithKey([h] + t, key, k) == (if key(h) == k then [h] else []) + WithKey(t, key, k)
  {
    assert ([h] + t)[1..] == t;
  }

  lemma {:induction false} InsertByKeyStable<T>(x: T, s: seq<T>, key: T -> seq<KeyPart>, k: seq<KeyPart>)
    requires SortedByKey(s, key)
    ensures WithKey(InsertByKey(x, s, key), key, k) == WithKey(s, key, k) + WithKey([x], key, k)
    decreases |s|
  {
    WithKeyCons(x, [], key, k);
    assert [x] + [] == [x];
    if s == [] {
    } else if KeyLess(key(x), key(s[0])) {
      WithKeyCons(x, s, key, k);
      if key(x) == k {
        WithKeyNone(s, key, k);
      }
    } else {
      SortedTail(s, key);
      InsertByKeyStable(x, s[1..], key, k);
      WithKeyCons(s[0], InsertByKey(x, s[1..], key), key, k);
      WithKeyCons(s[0], s[1..], key, k);
      assert [s[0]] + s[1..] == s;
    }
  }

  lemma {:induction false} WithKeyAppend<T>(a: seq<T>, b: seq<T>, key: T -> seq<KeyPart>, k: seq<KeyPart>)
    ensures WithKey(a + b, key, k) == WithKey(a, key, k) + WithKey(b, key, k)
    decreases |a|
  {
    if a != [] {
      assert (a + b)[1..] == a[1..] + b;
      WithKeyAppend(a[1..], b, key, k);
    } else {
      assert a + b == b;
    }
  }

  /** Sorting by key orders the list, keeps every element, and keeps elements with
      equal keys in their input order. */
  lemma {:induction false} SortByKeyCorrect<T>(xs: seq<T>, key: T -> seq<KeyPart>)
    ensures SortedByKey(SortByKey(xs, key), key)
    ensures multiset(SortByKey(xs, key)) == multiset(xs)
    ensures forall k :: WithKey(SortByKey(xs, key), key, k) == WithKey(xs, key, k)
    decreases |xs|
  {
    if xs != [] {
      var init := xs[..|xs| - 1];
      var x := xs[|xs| - 1];
      SortByKeyCorrect(init, key);
      InsertByKeySorted(x, SortByKey(init, key), key);
      InsertByKeyPermutes(x, SortByKey(init, key), key);
      assert xs == init + [x];
      forall k ensures WithKey(SortByKey(xs, key), key, k) == WithKey(xs, key, k) {
        InsertByKeyStable(x, SortByKey(init, key), key, k);
        WithKeyAppend(init, [x], key, k);
      }
    }
  }

  // ---------------------------------------------------------------- year of a path

  predicate FourDigitsAt(s: string, i: nat) { i + 4 <= |s| && AllDigits(s[i..i + 4]) }

  /** The five year patterns, in the order they are tried:
      `(\d{4})年`, `^(\d{4})/`, `/(\d{4})/`, `(\d{4})[-_]`, `(\d{4})`. */
  datatype YearRule = YearMarked | YearAtStart | YearBetweenSlashes | YearBeforeSeparator | AnyFourDigits

  const YearRules: seq<YearRule> := [YearMarked, YearAtStart, YearBetweenSlashes, YearBeforeSeparator, AnyFourDigits]

  /** Where the captured `(\d{4})` starts, relative to the start of the match. */
  function GroupOffset(r: YearRule): nat { if r == YearBetweenSlashes then 1 else 0 }

  /** The rule's pattern matches at position `i` of `s`. */
  predicate YearRuleMatchesAt(r: YearRule, s: string, i: nat)
  {
    match r
    case YearMarked => FourDigitsAt(s, i) && i + 4 < |s| && s[i + 4] == '年'
    case YearAtStart => i == 0 && FourDigitsAt(s, 0) && 4 < |s| && s[4] == '/'
    case YearBetweenSlashes => i + 5 < |s| && s[i] == '/' && FourDigitsAt(s, i + 1) && s[i + 5] == '/'
    case YearBeforeSeparator => FourDigitsAt(s, i) && i + 4 < |s| && (s[i + 4] == '-' || s[i + 4] == '_')
    case AnyFourDigits => FourDigitsAt(s, i)
  }

  /** `re.search`: the leftmost position at or after `i` where the rule matches. */
  function SearchYearRule(r: YearRule, s: string, i: nat): (p: Option<nat>)
    ensures p.Some? ==> i <= p.value && YearRuleMatchesAt(r, s, p.value)
    ensures forall q: nat :: i <= q && (p.None? || q < p.value) ==> !YearRuleMatchesAt(r, s, q)
    decreases |s| - i
  {
    if i >= |s| then None
    else if YearRuleMatchesAt(r, s, i) then Some(i)
    else SearchYearRule(r, s, i + 1)
  }

  /** `int(match.group(1))` for the rule's leftmost match, before the range check. */
  function RuleYear(r: YearRule, s: string): Option<nat>
  {
    match SearchYearRule(r, s, 0)
    case None => None
    case Some(p) =>
      var g := p + GroupOffset(r);
      Some(DigitsValue(s[g..g + 4]))
  }

  predicate ValidYear(y: nat) { 1900 <= y <= 2100 }

  predicate ValidCapture(c: Option<nat>) { c.Some? && ValidYear(c.value) }

  /** The pattern loop: the first rule whose leftmost match is in range decides. */
  function FirstValidYear(rules: seq<YearRule>, s: string): (y: Option<nat>)
    ensures y.Some? ==> ValidYear(y.value)
  {
    if rules == [] then None
    else if ValidCapture(RuleYear(rules[0], s)) then RuleYear(rules[0], s)
    else FirstValidYear(rules[1..], s)
  }

  /** `extract_year_from_path`. */
  function ExtractYear(path: string): (y: Option<nat>)
    ensures y.Some? ==> ValidYear(y.value)
  {
    FirstValidYear(YearRules, path)
  }

  /** The year returned is the leftmost match of the first rule whose leftmost match is
      in range; a rule whose leftmost match is out of range is abandoned, not searched further. */
  lemma {:induction false} FirstValidYearIs(rules: seq<YearRule>, s: string, y: nat)
    ensures FirstValidYear(rules, s) == Some(y) <==>
      exists k :: 0 <= k < |rules| && RuleYear(rules[k], s) == Some(y) && ValidYear(y) &&
        forall j :: 0 <= j < k ==> !ValidCapture(RuleYear(rules[j], s))
  {
    if rules != [] {
      FirstValidYearIs(rules[1..], s, y);
      if FirstValidYear(rules, s) == Some(y) {
        if ValidCapture(RuleYear(rules[0], s)) {
          assert RuleYear(rules[0], s) == Some(y);
        } else {
          var k :| 0 <= k < |rules[1..]| && RuleYear(rules[1..][k], s) == Some(y) && ValidYear(y) &&
            forall j :: 0 <= j < k ==> !ValidCapture(RuleYear(rules[1..][j], s));
          assert RuleYear(rules[k + 1], s) == Some(y);
          assert forall j :: 0 <= j < k + 1 ==> !ValidCapture(RuleYear(rules[j], s)) by {
            forall j | 0 < j < k + 1 ensures !ValidCapture(RuleYear(rules[j], s)) {
              assert rules[j] == rules[1..][j - 1];
            }
          }
        }
      }
      if exists k :: 0 <= k < |rules| && RuleYear(rules[k], s) == Some(y) && ValidYear(y) &&
          forall j :: 0 <= j < k ==> !ValidCapture(RuleYear(rules[j], s)) {
        var k :| 0 <= k < |rules| && RuleYear(rules[k], s) == Some(y) && ValidYear(y) &&
          forall j :: 0 <= j < k ==> !ValidCapture(RuleYear(rules[j], s));
        if k > 0 {
          assert !ValidCapture(RuleYear(rules[0], s));
          assert RuleYear(rules[1..][k - 1], s) == Some(y);
          assert forall j :: 0 <= j < k - 1 ==> !ValidCapture(RuleYear(rules[1..][j], s)) by {
            forall j | 0 <= j < k - 1 ensures !ValidCapture(RuleYear(rules[1..][j], s)) {
              assert rules[1..][j] == rules[j + 1];
            }
          }
        }
      }
    }
  }

  /** Every pattern captures four consecutive digits. */
  lemma RuleYearNeedsFourDigits(r: YearRule, s: string)
    ensures RuleYear(r, s).Some? ==> exists i: nat :: FourDigitsAt(s, i)
  {
    var p := SearchYearRule(r, s, 0);
    if p.Some? {
      assert FourDigitsAt(s, p.value + GroupOffset(r));
    }
  }

  lemma {:induction false} FirstValidYearNone(rules: seq<YearRule>, s: string)
    requires forall j :: 0 <= j < |rules| ==> RuleYear(rules[j], s).None?
    ensures FirstValidYear(rules, s) == None
  {
    if rules != [] {
      assert forall j :: 0 <= j < |rules[1..]| ==> rules[1..][j] == rules[j + 1];
      FirstValidYearNone(rules[1..], s);
    }
  }

  /** Without four consecutive digits no year is found. */
  lemma NoFourDigitsNoYear(path: string)
    requires forall i: nat :: !FourDigitsAt(path, i)
    ensures ExtractYear(path) == None
  {
    forall r: YearRule ensures RuleYear(r, path).None? {
      RuleYearNeedsFourDigits(r, path);
    }
    FirstValidYearNone(YearRules, path);
  }

  // ---------------------------------------------------------------- year and month of a path

  /** The three year-month patterns, in the order they are tried:
      `(\d{4})年(\d{1,2})月`, `(\d{4})[/-](\d{1,2})[/-]`, `(\d{4})年/(\d{1,2})月`. */
  datatype PairRule = YearMonthMarked | YearMonthDelimited | YearSlashMonthMarked

  const PairRules: seq<PairRule> := [YearMonthMarked, YearMonthDelimited, YearSlashMonthMarked]

  /** Offset of the month digits from the start of the match. */
  function MonthStart(r: PairRule): nat { if r == YearSlashMonthMarked then 6 else 5 }

  /** The part of the pattern before the month digits matches at `i`. */
  predicate PairPrefixAt(r: PairRule, s: string, i: nat)
  {
    FourDigitsAt(s, i) && i + MonthStart(r) <= |s| &&
    match r
    case YearMonthMarked => s[i + 4] == '年'
    case YearMonthDelimited => s[i + 4] == '/' || s[i + 4] == '-'
    case YearSlashMonthMarked => s[i + 4] == '年' && s[i + 5] == '/'
  }

  /** The character that must follow the month digits. */
  predicate Closes(r: PairRule, c: char)
  {
    if r == YearMonthDelimited then c == '/' || c == '-' else c == '月'
  }

  /** How many digits `(\d{1,2})` takes in a match at `i`: two when the rest of the
      pattern then matches (greedy), otherwise one, and 0 when there is no match at `i`. */
  function MonthDigitsAt(r: PairRule, s: string, i: nat): (n: nat)
    ensures n <= 2
    ensures n > 0 ==> (PairPrefixAt(r, s, i) && i + MonthStart(r) + n < |s| &&
                       AllDigits(s[i + MonthStart(r)..i + MonthStart(r) + n]) && Closes(r, s[i + MonthStart(r) + n]))
  {
    if !PairPrefixAt(r, s, i) then 0
    else
      var j := i + MonthStart(r);
      if j + 2 < |s| && IsDigit(s[j]) && IsDigit(s[j + 1]) && Closes(r, s[j + 2]) then 2
      else if j + 1 < |s| && IsDigit(s[j]) && Closes(r, s[j + 1]) then 1
      else 0
  }

  /** `re.search`: the leftmost position at or after `i` where the rule matches. */
  function SearchPairRule(r: PairRule, s: string, i: nat): (p: Option<nat>)
    ensures p.Some? ==> i <= p.value && MonthDigitsAt(r, s, p.value) > 0
    ensures forall q: nat :: i <= q && (p.None? || q < p.value) ==> MonthDigitsAt(r, s, q) == 0
    decreases |s| - i
  {
    if i >= |s| then None
    else if MonthDigitsAt(r, s, i) > 0 then Some(i)
    else SearchPairRule(r, s, i + 1)
  }

  /** `(int(match.group(1)), int(match.group(2)))` for the leftmost match. */
  function RulePair(r: PairRule, s: string): Option<(nat, nat)>
  {
    match SearchPairRule(r, s, 0)
    case None => None
    case Some(p) =>
      var j := p + MonthStart(r);
      Some((DigitsValue(s[p..p + 4]), DigitsValue(s[j..j + MonthDigitsAt(r, s, p)])))
  }

  predicate ValidPair(c: Option<(nat, nat)>) { c.Some? && ValidYear(c.value.0) && 1 <= c.value.1 <= 12 }

  /** The pattern loop: the first rule whose leftmost match is a valid year and month decides. */
  function FirstValidPair(rules: seq<PairRule>, s: string): (c: Option<(nat, nat)>)
    ensures c.Some? ==> ValidPair(c)
    ensures c.Some? ==> exists k :: 0 <= k < |rules| && RulePair(rules[k], s) == c
  {
    if rules == [] then None
    else if ValidPair(RulePair(rules[0], s)) then RulePair(rules[0], s)
    else
      var c := FirstValidPair(rules[1..], s);
      assert c.Some? ==> exists k :: 0 <= k < |rules[1..]| && RulePair(rules[1..][k], s) == c;
      assert c.Some? ==> exists k :: 0 <= k < |rules| && RulePair(rules[k], s) == c by {
        if c.Some? {
          var k :| 0 <= k < |rules[1..]| && RulePair(rules[1..][k], s) == c;
          assert rules[k + 1] == rules[1..][k];
        }
      }
      c
  }

  /** `extract_year_month_from_path`: (year, month), or (year, None) from the year rules,
      or (None, None). */
  function ExtractYearMonth(path: string): (r: (Option<nat>, Option<nat>))
    ensures r.1.Some? ==> r.0.Some? && 1 <= r.1.value <= 12
    ensures r.0.Some? ==> ValidYear(r.0.value)
  {
    var c := FirstValidPair(PairRules, path);
    if c.Some? then (Some(c.value.0), Some(c.value.1))
    else
      var year := ExtractYear(path);
      if year.Some? && year.value != 0 then (year, None) else (None, None)
  }

  /** When no year-month pattern yields a valid pair, the year alone comes from the year
      rules, and the pair is (None, None) exactly when they find nothing. */
  lemma YearMonthFallback(path: string)
    requires FirstValidPair(PairRules, path) == None
    ensures ExtractYearMonth(path) == (ExtractYear(path), None)
  {
  }

  /** A path whose leftmost `NNNN年M月` has a valid year and month yields exactly that pair. */
  lemma MarkedYearMonthWins(path: string, y: nat, m: nat)
    requires RulePair(YearMonthMarked, path) == Some((y, m)) && ValidYear(y) && 1 <= m <= 12
    ensures ExtractYearMonth(path) == (Some(y), Some(m))
  {
  }

  // ---------------------------------------------------------------- grouping a listing

  function YearOf(f: FileMeta): Option<nat> { ExtractYear(PathOf(f)) }

  /** `group_files_by_year`: files without a year are skipped, the rest appended to their year's list. */
  method GroupFilesByYear(files: seq<FileMeta>) returns (byYear: map<nat, seq<FileMeta>>)
    ensures byYear == GroupBy(files, YearOf)
  {
    byYear := map[];
    for i := 0 to |files|
      invariant byYear == GroupBy(files[..i], YearOf)
    {
      var file := files[i];
      var year := ExtractYear(PathOf(file));
      assert files[..i + 1] == files[..i] + [file];
      GroupBySnoc(files[..i], file, YearOf);
      if year.None? {
        continue;
      }
      var y := year.value;
      byYear := byYear[y := (if y in byYear then byYear[y] else []) + [file]];
    }
    assert files[..|files|] == files;
  }

  /** The year of a file that has both a year and a month. */
  function DatedYear(f: FileMeta): Option<nat>
  {
    var ym := ExtractYearMonth(PathOf(f));
    if ym.1.Some? then ym.0 else None
  }

  /** The month of a file that has both a year and a month. */
  function DatedMonth(f: FileMeta): Option<nat>
  {
    ExtractYearMonth(PathOf(f)).1
  }

  /** `group_files_by_year_month`: files lacking a year or a month are skipped, the rest
      appended to `[year][month]`. */
  method GroupFilesByYearMonth(files: seq<FileMeta>) returns (byYearMonth: map<nat, map<nat, seq<FileMeta>>>)
    ensures byYearMonth == Nested(files, DatedYear, DatedMonth)
  {
    byYearMonth := map[];
    GroupByEmpty(DatedYear);
    for i := 0 to |files|
      invariant byYearMonth == Nested(files[..i], DatedYear, DatedMonth)
    {
      var file := files[i];
      var (year, month) := ExtractYearMonth(PathOf(file));
      assert files[..i + 1] == files[..i] + [file];
      NestedSnoc(files[..i], file, DatedYear, DatedMonth);
      if year.None? {
        continue;
      }
      if month.None? {
        continue;
      }
      var y := year.value;
      var m := month.value;
      var inner := if y in byYearMonth then byYearMonth[y] else map[];
      byYearMonth := byYearMonth[y := inner[m := (if m in inner then inner[m] else []) + [file]]];
    }
    assert files[..|files|] == files;
  }
}
