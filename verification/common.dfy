/** Shared vocabulary: optional values, failing computations, and the
    sequence operations (stable sort by a key, order-preserving selection)
    that the Ruby and Python benchmarkers borrow from their standard
    libraries (`sort_by`, `list.sort`, `select`, `reject`). */
module Common {

  datatype Option<T> = None | Some(value: T)

  /** A computation that either yields a value or raises with a message. */
  datatype Outcome<T> = Ok(value: T) | Fail(msg: string)

  /** `s` is non-decreasing under `key`. */
  ghost predicate SortedBy<T>(s: seq<T>, key: T -> real) {
    forall i, j :: 0 <= i < j < |s| ==> key(s[i]) <= key(s[j])
  }

  /** Inserts `x` in front of the first element whose key is not smaller,
      so equal keys keep their relative order. */
  function Insert<T>(x: T, s: seq<T>, key: T -> real): (r: seq<T>)
    requires SortedBy(s, key)
    ensures |r| == |s| + 1
    ensures SortedBy(r, key)
    ensures multiset(r) == multiset(s) + multiset{x}
    ensures r[0] == x || (|s| > 0 && r[0] == s[0])
  {
    if |s| == 0 then [x]
    else if key(x) <= key(s[0]) then [x] + s
    else
      var tail := Insert(x, s[1..], key);
      InsertStep(x, s, tail, key);
      [s[0]] + tail
  }

  /** The recursive case of `Insert`: the head stays in front of the tail
      that has `x` inserted. */
  lemma InsertStep<T>(x: T, s: seq<T>, tail: seq<T>, key: T -> real)
    requires SortedBy(s, key) && |s| > 0 && key(s[0]) < key(x)
    requires SortedBy(tail, key) && |tail| == |s|
    requires multiset(tail) == multiset(s[1..]) + multiset{x}
    requires tail[0] == x || (|s| > 1 && tail[0] == s[1])
    ensures SortedBy([s[0]] + tail, key)
    ensures multiset([s[0]] + tail) == multiset(s) + multiset{x}
  {
    SortedCons(s[0], tail, key);
    assert s == [s[0]] + s[1..];
  }

  /** A sorted sequence stays sorted with a no-larger head in front. */
  lemma SortedCons<T>(h: T, t: seq<T>, key: T -> real)
    requires SortedBy(t, key) && |t| > 0 && key(h) <= key(t[0])
    ensures SortedBy([h] + t, key)
  {
    var r := [h] + t;
    forall i, j | 0 <= i < j < |r|
      ensures key(r[i]) <= key(r[j])
    {
      if i == 0 {
        assert key(t[0]) <= key(t[j - 1]) || j == 1;
      }
    }
  }

  /** Stable insertion sort: the arrangement of `s` that is ascending by
      `key`. */
  function SortBy<T>(s: seq<T>, key: T -> real): (r: seq<T>)
    ensures |r| == |s|
    ensures SortedBy(r, key)
    ensures multiset(r) == multiset(s)
  {
    if |s| == 0 then []
    else
      assert s == [s[0]] + s[1..];
      Insert(s[0], SortBy(s[1..], key), key)
  }

  /** The images under `f` of the elements of `s`, counted with
      multiplicity: `multiset(s.map(f))`. */
  function Bag<T, U>(s: seq<T>, f: T -> U): (b: multiset<U>)
    ensures |b| == |s|
    decreases |s|
  {
    if |s| == 0 then multiset{} else multiset{f(s[0])} + Bag(s[1..], f)
  }

  /** Two sequences whose elements have the same images, position by
      position, have the same bag of images. */
  lemma {:induction false} BagPointwise<T, V, U>(s: seq<T>, f: T -> U, t: seq<V>, g: V -> U)
    requires |s| == |t| && forall k :: 0 <= k < |s| ==> f(s[k]) == g(t[k])
    ensures Bag(s, f) == Bag(t, g)
    decreases |s|
  {
    if |s| > 0 {
      assert f(s[0]) == g(t[0]);
      BagPointwise(s[1..], f, t[1..], g);
    }
  }

  /** The image of every element is in the bag. */
  lemma {:induction false} ImageInBag<T, U>(s: seq<T>, f: T -> U, j: nat)
    requires j < |s|
    ensures f(s[j]) in Bag(s, f)
    decreases |s|
  {
    if j > 0 {
      ImageInBag(s[1..], f, j - 1);
    }
  }

  /** Everything in the bag is the image of some element. */
  lemma {:induction false} BagHasImage<T, U>(s: seq<T>, f: T -> U, x: U)
    requires x in Bag(s, f)
    ensures exists k :: 0 <= k < |s| && f(s[k]) == x
    decreases |s|
  {
    if f(s[0]) != x {
      BagHasImage(s[1..], f, x);
      var k :| 0 <= k < |s[1..]| && f(s[1..][k]) == x;
      assert f(s[k + 1]) == x;
    }
  }

  /** Inserting `x` adds `f(x)` to the bag of images. */
  lemma {:induction false} InsertBag<T, U>(x: T, s: seq<T>, key: T -> real, f: T -> U)
    requires SortedBy(s, key)
    ensures Bag(Insert(x, s, key), f) == Bag(s, f) + multiset{f(x)}
    decreases |s|
  {
    if |s| == 0 {
    } else if key(x) <= key(s[0]) {
      assert ([x] + s)[1..] == s;
    } else {
      var tail := Insert(x, s[1..], key);
      InsertBag(x, s[1..], key, f);
      assert ([s[0]] + tail)[1..] == tail;
    }
  }

  /** Sorting leaves the bag of images under any `f` unchanged. */
  lemma {:induction false} SortByBag<T, U>(s: seq<T>, key: T -> real, f: T -> U)
    ensures Bag(SortBy(s, key), f) == Bag(s, f)
    decreases |s|
  {
    if |s| > 0 {
      SortByBag(s[1..], key, f);
      InsertBag(s[0], SortBy(s[1..], key), key, f);
    }
  }

  /** The elements of `s` satisfying `p`, in their original order. */
  function Select<T>(s: seq<T>, p: T -> bool): (r: seq<T>)
    ensures |r| <= |s|
    ensures forall k :: 0 <= k < |r| ==> r[k] in s && p(r[k])
    ensures forall i :: 0 <= i < |s| && p(s[i]) ==> s[i] in r
  {
    if |s| == 0 then []
    else if p(s[0]) then [s[0]] + Select(s[1..], p)
    else Select(s[1..], p)
  }

  /** Selecting by `p` and by its negation splits `s` into two parts that
      together hold every element exactly as often as `s` does. */
  lemma {:induction false} SelectPartition<T>(s: seq<T>, p: T -> bool, q: T -> bool)
    requires forall x :: q(x) == !p(x)
    ensures multiset(Select(s, p)) + multiset(Select(s, q)) == multiset(s)
    ensures |Select(s, p)| + |Select(s, q)| == |s|
  {
    if |s| > 0 {
      SelectPartition(s[1..], p, q);
      assert s == [s[0]] + s[1..];
    }
  }

  /** Selection keeps relative order: it is an order-preserving
      sub-sequence of its input. */
  lemma {:induction false} SelectIsSubsequence<T>(s: seq<T>, p: T -> bool)
    ensures IsSubsequence(Select(s, p), s)
  {
    if |s| > 0 {
      SelectIsSubsequence(s[1..], p);
      var r := Select(s[1..], p);
      var idx :| Embeds(idx, r, s[1..]);
      ShiftEmbeds(idx, r, s[1..], s[0]);
      assert s == [s[0]] + s[1..];
      if p(s[0]) {
        assert Embeds([0] + Shift(idx), [s[0]] + r, s);
      } else {
        assert Embeds(Shift(idx), r, s);
      }
    } else {
      assert Embeds([], [], s);
    }
  }

  function Shift(idx: seq<nat>): (r: seq<nat>)
    ensures |r| == |idx|
    ensures forall k :: 0 <= k < |idx| ==> r[k] == idx[k] + 1
  {
    seq(|idx|, k requires 0 <= k < |idx| => idx[k] + 1)
  }

  /** Positions of `r` in `s` move up by one when `x` is put in front of
      `s`, and position 0 then spells `x`. */
  lemma ShiftEmbeds<T>(idx: seq<nat>, r: seq<T>, s: seq<T>, x: T)
    requires Embeds(idx, r, s)
    ensures Embeds(Shift(idx), r, [x] + s)
    ensures Embeds([0] + Shift(idx), [x] + r, [x] + s)
  {
    var sh := Shift(idx);
    var xs := [x] + s;
    assert Embeds(sh, r, xs) by {
      forall k | 0 <= k < |sh|
        ensures sh[k] < |xs| && xs[sh[k]] == r[k]
      {
        assert xs[idx[k] + 1] == s[idx[k]];
      }
    }
    var full := [0] + sh;
    forall k | 0 <= k < |full|
      ensures full[k] < |xs| && xs[full[k]] == ([x] + r)[k]
    {
      if k > 0 {
        assert full[k] == sh[k - 1];
      }
    }
    forall k, m | 0 <= k < m < |full|
      ensures full[k] < full[m]
    {
      if k > 0 {
        assert full[k] == sh[k - 1] && full[m] == sh[m - 1];
      }
    }
  }

  /** `idx` lists strictly increasing positions of `s` that spell out `r`. */
  ghost predicate Embeds<T>(idx: seq<nat>, r: seq<T>, s: seq<T>) {
    && |idx| == |r|
    && (forall k :: 0 <= k < |idx| ==> idx[k] < |s| && s[idx[k]] == r[k])
    && (forall k, m :: 0 <= k < m < |idx| ==> idx[k] < idx[m])
  }

  ghost predicate IsSubsequence<T>(r: seq<T>, s: seq<T>) {
    exists idx :: Embeds(idx, r, s)
  }

  /** An element occurring at two positions occurs twice. */
  lemma TwiceAtTwoPositions<T>(s: seq<T>, i: nat, j: nat)
    requires i < j < |s| && s[i] == s[j]
    ensures multiset(s)[s[i]] >= 2
  {
    assert s == s[..j] + s[j..];
    assert s[i] in s[..j];
    assert s[j] in s[j..];
    assert multiset(s) == multiset(s[..j]) + multiset(s[j..]);
  }

  /** Elements at distinct positions differ, so each occurs at most once. */
  lemma {:induction false} DistinctOccursOnce<T>(s: seq<T>)
    requires forall i, j :: 0 <= i < j < |s| ==> s[i] != s[j]
    ensures forall x :: multiset(s)[x] <= 1
  {
    if |s| > 0 {
      DistinctOccursOnce(s[1..]);
      assert s == [s[0]] + s[1..];
      assert s[0] !in s[1..];
    }
  }

  /** Ruby's `\w` in a regular expression: an ASCII letter, digit or
      underscore. */
  predicate IsWordChar(c: char) {
    ('a' <= c <= 'z') || ('A' <= c <= 'Z') || ('0' <= c <= '9') || c == '_'
  }

  predicate IsDigit(c: char) {
    '0' <= c <= '9'
  }

  /** The number of leading characters of `s` equal to `c`. */
  function LeadingCount(s: string, c: char): (n: nat)
    ensures n <= |s|
    ensures forall i :: 0 <= i < n ==> s[i] == c
    ensures n == |s| || s[n] != c
  {
    if |s| == 0 || s[0] != c then 0 else 1 + LeadingCount(s[1..], c)
  }

  /** The result of a floating-point operation that has no finite value
      (a division by zero). */
  datatype Ratio = Finite(v: real) | NonFinite

  /** Ruby's `Float#to_i`: drops the fraction, rounding toward zero. */
  function TruncateTowardZero(x: real): (n: int)
    ensures x >= 0.0 ==> n >= 0 && n as real <= x < n as real + 1.0
    ensures x < 0.0 ==> n <= 0 && n as real - 1.0 < x <= n as real
  {
    if x >= 0.0 then x.Floor else -((-x).Floor)
  }

  /** Ruby's `Float#round`: the nearest integer, halves rounding away from
      zero. */
  function Round(x: real): (n: int)
    ensures x - 0.5 <= n as real <= x + 0.5
    ensures x >= 0.0 ==> n >= 0 && x - 0.5 < n as real
    ensures x < 0.0 ==> n <= 0 && n as real < x + 0.5
  {
    if x >= 0.0 then (x + 0.5).Floor else -((-x + 0.5).Floor)
  }

  /** The message of Ruby's `FloatDomainError` for `x / 0.0` with a
      numerator of the sign of `x`. */
  function NonFiniteName(x: real): string {
    if x > 0.0 then "Infinity" else if x < 0.0 then "-Infinity" else "NaN"
  }
}
