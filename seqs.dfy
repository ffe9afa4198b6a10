/** Small collection helpers shared by the whole model: an Option type, flattening
    of nested sequences, the ascending key list of a dictionary (Python's
    `sorted(d.keys())`) and Python's `sorted` on a list of integers. */
module Seqs {

  datatype Option<T> = None | Some(value: T)

  /** Concatenation of a list of lists, in order. */
  function Flatten<T>(ss: seq<seq<T>>): (r: seq<T>)
  {
    if ss == [] then [] else ss[0] + Flatten(ss[1..])
  }

  lemma {:induction false} FlattenAppend<T>(ss: seq<seq<T>>, s: seq<T>)
    ensures Flatten(ss + [s]) == Flatten(ss) + s
  {
    if ss == [] {
      assert ss + [s] == [s];
    } else {
      assert (ss + [s])[1..] == ss[1..] + [s];
      FlattenAppend(ss[1..], s);
    }
  }

  /** `k` copies of `x`. */
  function Repeat<T>(x: T, k: nat): (r: seq<T>)
    ensures |r| == k && forall i :: 0 <= i < k ==> r[i] == x
  {
    if k == 0 then [] else [x] + Repeat(x, k - 1)
  }

  lemma RepeatSnoc<T>(x: T, k: nat)
    ensures Repeat(x, k) + [x] == Repeat(x, k + 1)
  {
  }

  predicate StrictlyAscending(s: seq<nat>)
  {
    forall i, j :: 0 <= i < j < |s| ==> s[i] < s[j]
  }

  predicate Ascending(s: seq<nat>)
  {
    forall i, j :: 0 <= i < j < |s| ==> s[i] <= s[j]
  }

  /** A least element of a non-empty set, found by removing elements one at a time. */
  ghost function LeastOf(s: set<nat>): (m: nat)
    requires s != {}
    ensures m in s && forall x :: x in s ==> m <= x
    decreases |s|
  {
    var x :| x in s;
    if s == {x} then x
    else
      var rest := s - {x};
      var m := LeastOf(rest);
      assert forall y :: y in s ==> y == x || y in rest;
      if x < m then x else m
  }

  /** The least element of a non-empty set. */
  function Min(s: set<nat>): (m: nat)
    requires s != {}
    ensures m in s && forall x :: x in s ==> m <= x
  {
    assert LeastOf(s) in s && forall x :: x in s ==> LeastOf(s) <= x;
    var m :| m in s && forall x :: x in s ==> m <= x; m
  }

  /** Python's `sorted(keys)` for a set of dictionary keys: every key once, ascending. */
  function SortedKeys(s: set<nat>): (r: seq<nat>)
    ensures |r| == |s|
    ensures forall x :: x in r <==> x in s
    ensures StrictlyAscending(r)
    decreases |s|
  {
    if s == {} then []
    else
      var m := Min(s);
      var rest := SortedKeys(s - {m});
      assert forall i :: 0 <= i < |rest| ==> m < rest[i] by {
        forall i | 0 <= i < |rest| ensures m < rest[i] {
          assert rest[i] in s - {m};
        }
      }
      [m] + rest
  }

  /** A set has one strictly ascending listing. */
  lemma {:induction false} AscendingUnique(a: seq<nat>, b: seq<nat>)
    requires StrictlyAscending(a) && StrictlyAscending(b)
    requires forall x :: x in a <==> x in b
    ensures a == b
    decreases |a|
  {
    assert a != [] ==> a[0] in b;
    assert b != [] ==> b[0] in a;
    if a != [] && b != [] {
      assert a[0] == b[0];
      forall x ensures x in a[1..] <==> x in b[1..] {
        assert x in a[1..] <==> x in a && x != a[0];
        assert x in b[1..] <==> x in b && x != b[0];
      }
      AscendingUnique(a[1..], b[1..]);
      assert a == [a[0]] + a[1..] && b == [b[0]] + b[1..];
    }
  }

  /** Adding a key above all others puts it at the end of the sorted listing. */
  lemma SortedKeysAddMax(s: set<nat>, m: nat)
    requires forall x :: x in s ==> x < m
    ensures SortedKeys(s + {m}) == SortedKeys(s) + [m]
  {
    var r := SortedKeys(s) + [m];
    assert StrictlyAscending(r) by {
      forall i, j | 0 <= i < j < |r| ensures r[i] < r[j] {
        if j == |r| - 1 {
          assert r[i] in SortedKeys(s);
        }
      }
    }
    AscendingUnique(SortedKeys(s + {m}), r);
  }

  /** Inserts `x` in front of the first element greater than it. */
  function InsertNat(x: nat, s: seq<nat>): seq<nat>
  {
    if s == [] then [x]
    else if x <= s[0] then [x] + s
    else [s[0]] + InsertNat(x, s[1..])
  }

  lemma {:induction false} InsertNatPermutes(x: nat, s: seq<nat>)
    ensures multiset(InsertNat(x, s)) == multiset(s) + multiset{x}
  {
    if s != [] && x > s[0] {
      InsertNatPermutes(x, s[1..]);
      assert s == [s[0]] + s[1..];
    }
  }

  lemma {:induction false} InsertNatAscending(x: nat, s: seq<nat>)
    requires Ascending(s)
    ensures Ascending(InsertNat(x, s))
  {
    if s != [] && x > s[0] {
      var tail := InsertNat(x, s[1..]);
      InsertNatAscending(x, s[1..]);
      InsertNatPermutes(x, s[1..]);
      forall i | 0 <= i < |tail| ensures s[0] <= tail[i] {
        assert tail[i] in multiset(tail);
        assert tail[i] in multiset(s[1..]) + multiset{x};
      }
      var r := [s[0]] + tail;
      forall i, j | 0 <= i < j < |r| ensures r[i] <= r[j] {
        assert r[j] == tail[j - 1];
        if i > 0 {
          assert r[i] == tail[i - 1];
        }
      }
    }
  }

  /** Python's `sorted(list_of_ints)` for non-negative integers, by insertion. */
  function SortNats(s: seq<nat>): seq<nat>
  {
    if s == [] then [] else InsertNat(s[|s| - 1], SortNats(s[..|s| - 1]))
  }

  /** The sorted list is ascending and a permutation of the input. */
  lemma {:induction false} SortNatsCorrect(s: seq<nat>)
    ensures Ascending(SortNats(s)) && multiset(SortNats(s)) == multiset(s)
  {
    if s != [] {
      var init := s[..|s| - 1];
      SortNatsCorrect(init);
      InsertNatAscending(s[|s| - 1], SortNats(init));
      InsertNatPermutes(s[|s| - 1], SortNats(init));
      assert s == init + [s[|s| - 1]];
    }
  }

  /** Sorting keeps every element and the length. */
  lemma SortNatsMembers(s: seq<nat>)
    ensures |SortNats(s)| == |s|
    ensures forall x :: x in SortNats(s) <==> x in s
  {
    SortNatsCorrect(s);
    assert |SortNats(s)| == |multiset(SortNats(s))|;
    forall x ensures x in SortNats(s) <==> x in s {
      assert x in SortNats(s) <==> x in multiset(SortNats(s));
      assert x in s <==> x in multiset(s);
    }
  }
}
