/** Sorting reals, and the order statistics of a sample described by counting,
    independently of any sort. */
module OrderStatistics {
  import opened Sorting

  predicate AtMost(a: real, b: real) {
    a <= b
  }

  function Sort(s: seq<real>): (r: seq<real>)
    ensures |r| == |s|
  {
    SortBy(AtMost, s)
  }

  function CountBelow(s: seq<real>, v: real): nat {
    if s == [] then 0 else (if s[0] < v then 1 else 0) + CountBelow(s[1..], v)
  }

  function CountUpTo(s: seq<real>, v: real): nat {
    if s == [] then 0 else (if s[0] <= v then 1 else 0) + CountUpTo(s[1..], v)
  }

  /** `v` is the value at index `k` of the sample in increasing order. */
  ghost predicate IsRank(s: seq<real>, k: nat, v: real) {
    CountBelow(s, v) <= k < CountUpTo(s, v)
  }

  // ---- the sort delivers the order statistics ----

  lemma SortIncreases(s: seq<real>, i: nat, j: nat)
    requires i < j < |s|
    ensures Sort(s)[i] <= Sort(s)[j]
  {
    SortSorts(AtMost, s);
    assert AtMost(Sort(s)[i], Sort(s)[j]);
  }

  lemma {:induction false} InsertCounts(x: real, s: seq<real>, v: real)
    ensures CountBelow(InsertBy(AtMost, x, s), v) == (if x < v then 1 else 0) + CountBelow(s, v)
    ensures CountUpTo(InsertBy(AtMost, x, s), v) == (if x <= v then 1 else 0) + CountUpTo(s, v)
  {
    if s == [] || x <= s[0] {
      assert ([x] + s)[1..] == s;
    } else {
      InsertCounts(x, s[1..], v);
      assert ([s[0]] + InsertBy(AtMost, x, s[1..]))[1..] == InsertBy(AtMost, x, s[1..]);
    }
  }

  lemma {:induction false} SortCounts(s: seq<real>, v: real)
    ensures CountBelow(Sort(s), v) == CountBelow(s, v)
    ensures CountUpTo(Sort(s), v) == CountUpTo(s, v)
  {
    if s != [] {
      SortCounts(s[1..], v);
      InsertCounts(s[0], Sort(s[1..]), v);
    }
  }

  lemma {:induction false} SortedRank(s: seq<real>, k: nat)
    requires SortedBy(AtMost, s) && k < |s|
    ensures IsRank(s, k, s[k])
  {
    if k == 0 {
      NoneBelow(s, s[0]);
    } else {
      SortedRank(s[1..], k - 1);
    }
  }

  lemma {:induction false} NoneBelow(s: seq<real>, v: real)
    requires forall i | 0 <= i < |s| :: v <= s[i]
    ensures CountBelow(s, v) == 0
  {
    if s != [] {
      NoneBelow(s[1..], v);
    }
  }

  lemma SortDeliversRanks(s: seq<real>, k: nat)
    requires k < |s|
    ensures IsRank(s, k, Sort(s)[k])
  {
    SortSorts(AtMost, s);
    SortedRank(Sort(s), k);
    SortCounts(s, Sort(s)[k]);
  }

  lemma {:induction false} UpToIsBelow(s: seq<real>, v: real, w: real)
    requires v < w
    ensures CountUpTo(s, v) <= CountBelow(s, w)
  {
    if s != [] {
      UpToIsBelow(s[1..], v, w);
    }
  }

  lemma RankIsUnique(s: seq<real>, k: nat, v: real, w: real)
    requires IsRank(s, k, v) && IsRank(s, k, w)
    ensures v == w
  {
    if v < w {
      UpToIsBelow(s, v, w);
    } else if w < v {
      UpToIsBelow(s, w, v);
    }
  }

  // ---- ranks under increasing maps and reflections ----

  /** `t` is `s` under `f`, element by element. */
  ghost predicate IsImage(s: seq<real>, t: seq<real>, f: real -> real) {
    |s| == |t| && forall i | 0 <= i < |s| :: t[i] == f(s[i])
  }

  ghost predicate Increasing(f: real -> real) {
    forall x, y | x < y :: f(x) < f(y)
  }

  ghost predicate Negates(f: real -> real) {
    forall x :: f(x) == -x
  }

  lemma {:induction false} ImageCounts(s: seq<real>, t: seq<real>, f: real -> real, v: real)
    requires Increasing(f) && IsImage(s, t, f)
    ensures CountBelow(t, f(v)) == CountBelow(s, v)
    ensures CountUpTo(t, f(v)) == CountUpTo(s, v)
  {
    if s != [] {
      ImageCounts(s[1..], t[1..], f, v);
      assert t[0] == f(s[0]);
    }
  }

  lemma {:induction false} NegatedCounts(s: seq<real>, t: seq<real>, f: real -> real, v: real)
    requires Negates(f) && IsImage(s, t, f)
    ensures CountBelow(t, -v) == |s| - CountUpTo(s, v)
    ensures CountUpTo(t, -v) == |s| - CountBelow(s, v)
  {
    if s != [] {
      NegatedCounts(s[1..], t[1..], f, v);
    }
  }

  lemma SortedAtRank(s: seq<real>, k: nat, v: real)
    requires k < |s| && IsRank(s, k, v)
    ensures Sort(s)[k] == v
  {
    SortDeliversRanks(s, k);
    RankIsUnique(s, k, Sort(s)[k], v);
  }

  /** An increasing map of a sample carries each order statistic along. */
  lemma SortedImage(s: seq<real>, t: seq<real>, f: real -> real, k: nat)
    requires Increasing(f) && IsImage(s, t, f) && k < |s|
    ensures Sort(t)[k] == f(Sort(s)[k])
  {
    SortDeliversRanks(s, k);
    ImageCounts(s, t, f, Sort(s)[k]);
    SortedAtRank(t, k, f(Sort(s)[k]));
  }

  /** Reflecting a sample reverses its order statistics. */
  lemma SortedNegated(s: seq<real>, t: seq<real>, f: real -> real, k: nat)
    requires Negates(f) && IsImage(s, t, f) && k < |s|
    ensures Sort(t)[|s| - 1 - k] == -Sort(s)[k]
  {
    SortDeliversRanks(s, k);
    NegatedCounts(s, t, f, Sort(s)[k]);
    SortedAtRank(t, |s| - 1 - k, -Sort(s)[k]);
  }
}
