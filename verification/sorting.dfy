/** Python's ordering of lists of numbers and its stable `sorted(key=...)`,
    as pairing/dutch_swiss.py uses them: tuples such as `(-score,
    pairing_number)` and lists of scores are compared element by element,
    a strict prefix coming first. Keys are written as sequences of reals. */
module Sorting {

  /** pairing/dutch_swiss.py `_compare_lex_lists`, which is also how Python
      orders two lists or tuples: -1, 0 or 1. */
  function CompareLex(a: seq<real>, b: seq<real>): (r: int)
    ensures -1 <= r <= 1
    ensures r == 0 <==> a == b
  {
    if |a| == 0 || |b| == 0 then
      if |a| < |b| then -1 else if |a| > |b| then 1 else 0
    else if a[0] < b[0] then -1
    else if a[0] > b[0] then 1
    else
      var r := CompareLex(a[1..], b[1..]);
      assert r == 0 ==> a == [a[0]] + a[1..] && b == [b[0]] + b[1..];
      r
  }

  /** Swapping the arguments negates the comparison. */
  lemma {:induction false} LexAntisymmetric(a: seq<real>, b: seq<real>)
    ensures CompareLex(b, a) == -CompareLex(a, b)
  {
    if |a| > 0 && |b| > 0 && a[0] == b[0] {
      LexAntisymmetric(a[1..], b[1..]);
    }
  }

  /** A strict prefix compares smaller. */
  lemma {:induction false} LexPrefixSmaller(a: seq<real>, b: seq<real>)
    requires |a| < |b| && a == b[..|a|]
    ensures CompareLex(a, b) == -1
  {
    if |a| > 0 {
      assert a[0] == b[0];
      assert a[1..] == b[1..][..|a| - 1];
      LexPrefixSmaller(a[1..], b[1..]);
    }
  }

  /** The comparison is transitive. */
  lemma {:induction false} LexTransitive(a: seq<real>, b: seq<real>, c: seq<real>)
    requires CompareLex(a, b) <= 0 && CompareLex(b, c) <= 0
    ensures CompareLex(a, c) <= 0
  {
    if |a| > 0 && |b| > 0 && |c| > 0 && a[0] == b[0] && b[0] == c[0] {
      LexTransitive(a[1..], b[1..], c[1..]);
    }
  }

  /** The first elements of two ordered non-empty keys are ordered. */
  lemma LexHead(a: seq<real>, b: seq<real>)
    requires |a| > 0 && |b| > 0 && CompareLex(a, b) <= 0
    ensures a[0] <= b[0]
  {
  }

  /** `s` is ordered by `key`: no element's key is below an earlier one's. */
  ghost predicate SortedBy<T>(s: seq<T>, key: T -> seq<real>) {
    forall i, j :: 0 <= i < j < |s| ==> CompareLex(key(s[i]), key(s[j])) <= 0
  }

  /** In a sorted list an element whose key is strictly below another's
      comes before it. */
  lemma {:induction false} SortedBefore<T>(s: seq<T>, key: T -> seq<real>, i: nat, j: nat)
    requires SortedBy(s, key) && i < |s| && j < |s|
    requires CompareLex(key(s[i]), key(s[j])) == -1
    ensures i < j
  {
    if j <= i {
      LexAntisymmetric(key(s[i]), key(s[j]));
      assert false;
    }
  }

  /** One step of a stable insertion sort: `x`, which came before every
      element of `s` in the input, goes in front of the first element whose
      key is not below its own. */
  function Insert<T>(x: T, s: seq<T>, key: T -> seq<real>): (r: seq<T>)
    ensures multiset(r) == multiset(s) + multiset{x}
  {
    if s == [] || CompareLex(key(s[0]), key(x)) >= 0 then [x] + s
    else
      assert s == [s[0]] + s[1..];
      [s[0]] + Insert(x, s[1..], key)
  }

  /** Inserting into a sorted list keeps it sorted. */
  lemma {:induction false} InsertSorted<T>(x: T, s: seq<T>, key: T -> seq<real>)
    requires SortedBy(s, key)
    ensures SortedBy(Insert(x, s, key), key)
  {
    if s == [] {
      assert Insert(x, s, key) == [x];
    } else if CompareLex(key(s[0]), key(x)) >= 0 {
      LexAntisymmetric(key(s[0]), key(x));
      forall j | 0 <= j < |s| ensures CompareLex(key(x), key(s[j])) <= 0 {
        if j > 0 { LexTransitive(key(x), key(s[0]), key(s[j])); }
      }
      SortedCons(x, s, key);
    } else {
      var rest := Insert(x, s[1..], key);
      SortedTail(s, key);
      InsertSorted(x, s[1..], key);
      LexAntisymmetric(key(s[0]), key(x));
      forall j | 0 <= j < |rest| ensures CompareLex(key(s[0]), key(rest[j])) <= 0 {
        assert rest[j] in multiset(rest);
        if rest[j] != x {
          assert rest[j] in multiset(s[1..]);
          var k :| 0 <= k < |s[1..]| && s[1..][k] == rest[j];
          assert s[1..][k] == s[k + 1];
        }
      }
      SortedCons(s[0], rest, key);
    }
  }

  lemma SortedTail<T>(s: seq<T>, key: T -> seq<real>)
    requires SortedBy(s, key) && s != []
    ensures SortedBy(s[1..], key)
  {
    forall i, j | 0 <= i < j < |s[1..]|
      ensures CompareLex(key(s[1..][i]), key(s[1..][j])) <= 0
    {
      assert s[1..][i] == s[i + 1] && s[1..][j] == s[j + 1];
    }
  }

  lemma SortedCons<T>(h: T, t: seq<T>, key: T -> seq<real>)
    requires SortedBy(t, key)
    requires forall j :: 0 <= j < |t| ==> CompareLex(key(h), key(t[j])) <= 0
    ensures SortedBy([h] + t, key)
  {
    var r := [h] + t;
    forall i, j | 0 <= i < j < |r| ensures CompareLex(key(r[i]), key(r[j])) <= 0 {
      assert r[j] == t[j - 1];
      if i > 0 { assert r[i] == t[i - 1]; }
    }
  }

  /** Python `sorted(s, key=key)`: a stable sort, here by insertion. */
  function SortBy<T>(s: seq<T>, key: T -> seq<real>): (r: seq<T>)
    ensures multiset(r) == multiset(s) && |r| == |s|
    ensures SortedBy(r, key)
  {
    if s == [] then []
    else
      assert s == [s[0]] + s[1..];
      InsertSorted(s[0], SortBy(s[1..], key), key);
      Insert(s[0], SortBy(s[1..], key), key)
  }

  /** The elements of `s` whose key is `k`, in their order in `s`. */
  function Ties<T>(s: seq<T>, key: T -> seq<real>, k: seq<real>): (r: seq<T>)
    ensures |r| <= |s|
    ensures forall x :: x in r ==> x in s && key(x) == k
    ensures forall i :: 0 <= i < |s| && key(s[i]) == k ==> s[i] in r
  {
    if s == [] then []
    else (if key(s[0]) == k then [s[0]] else []) + Ties(s[1..], key, k)
  }

  /** Inserting `x` puts it in front of the elements that tie with it and
      leaves every other run of ties as it was. */
  lemma {:induction false} InsertTies<T>(x: T, s: seq<T>, key: T -> seq<real>, k: seq<real>)
    ensures Ties(Insert(x, s, key), key, k) == (if key(x) == k then [x] else []) + Ties(s, key, k)
  {
    if s != [] && CompareLex(key(s[0]), key(x)) < 0 {
      InsertTies(x, s[1..], key, k);
      var r := Insert(x, s, key);
      assert r[0] == s[0] && r[1..] == Insert(x, s[1..], key);
    }
  }

  /** The sort is stable: elements with equal keys keep their input order. */
  lemma {:induction false} SortStable<T>(s: seq<T>, key: T -> seq<real>, k: seq<real>)
    ensures Ties(SortBy(s, key), key, k) == Ties(s, key, k)
  {
    if s != [] {
      SortStable(s[1..], key, k);
      InsertTies(s[0], SortBy(s[1..], key), key, k);
    }
  }

  /** Every element of a sorted copy comes from the input. */
  lemma SortMember<T>(s: seq<T>, key: T -> seq<real>, i: int)
    requires 0 <= i < |SortBy(s, key)|
    ensures SortBy(s, key)[i] in s
  {
    assert SortBy(s, key)[i] in multiset(SortBy(s, key));
  }
}
