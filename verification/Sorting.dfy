/** Sorting under any total preorder, and dropping repeats from a sorted list. */
module Sorting {

  ghost predicate TotalPreorder<T(!new)>(leq: (T, T) -> bool) {
    && (forall a, b :: leq(a, b) || leq(b, a))
    && (forall a, b, c :: leq(a, b) && leq(b, c) ==> leq(a, c))
  }

  /** No two different elements tie. */
  ghost predicate NoTies<T(!new)>(leq: (T, T) -> bool, s: seq<T>) {
    forall a, b | a in s && b in s && leq(a, b) && leq(b, a) :: a == b
  }

  ghost predicate SortedBy<T>(leq: (T, T) -> bool, s: seq<T>) {
    forall i, j | 0 <= i < j < |s| :: leq(s[i], s[j])
  }

  ghost predicate Distinct<T>(s: seq<T>) {
    forall i, j | 0 <= i < j < |s| :: s[i] != s[j]
  }

  function InsertBy<T>(leq: (T, T) -> bool, x: T, s: seq<T>): (r: seq<T>)
    ensures |r| == |s| + 1
  {
    if s == [] || leq(x, s[0]) then [x] + s else [s[0]] + InsertBy(leq, x, s[1..])
  }

  function SortBy<T>(leq: (T, T) -> bool, s: seq<T>): (r: seq<T>)
    ensures |r| == |s|
  {
    if s == [] then [] else InsertBy(leq, s[0], SortBy(leq, s[1..]))
  }

  lemma {:induction false} InsertKeepsSorted<T(!new)>(leq: (T, T) -> bool, x: T, s: seq<T>)
    requires TotalPreorder(leq) && SortedBy(leq, s)
    ensures SortedBy(leq, InsertBy(leq, x, s))
    ensures s != [] ==> InsertBy(leq, x, s)[0] == if leq(x, s[0]) then x else s[0]
  {
    if s == [] {
    } else if leq(x, s[0]) {
      SortedHead(leq, x, s);
    } else {
      InsertKeepsSorted(leq, x, s[1..]);
      SortedHead(leq, s[0], InsertBy(leq, x, s[1..]));
    }
  }

  lemma SortedHead<T(!new)>(leq: (T, T) -> bool, x: T, s: seq<T>)
    requires TotalPreorder(leq) && SortedBy(leq, s) && (s != [] ==> leq(x, s[0]))
    ensures SortedBy(leq, [x] + s)
  {
    forall j | 0 <= j < |s|
      ensures leq(x, s[j])
    {
      assert j > 0 ==> leq(s[0], s[j]);
    }
  }

  /** Sorting sorts. */
  lemma {:induction false} SortSorts<T(!new)>(leq: (T, T) -> bool, s: seq<T>)
    requires TotalPreorder(leq)
    ensures SortedBy(leq, SortBy(leq, s))
  {
    if s != [] {
      SortSorts(leq, s[1..]);
      InsertKeepsSorted(leq, s[0], SortBy(leq, s[1..]));
    }
  }

  lemma {:induction false} InsertKeepsElements<T>(leq: (T, T) -> bool, x: T, s: seq<T>)
    ensures multiset(InsertBy(leq, x, s)) == multiset(s) + multiset{x}
  {
    if s != [] && !leq(x, s[0]) {
      InsertKeepsElements(leq, x, s[1..]);
      assert s == [s[0]] + s[1..];
    }
  }

  /** Sorting keeps every element, as often as it was there. */
  lemma {:induction false} SortKeepsElements<T>(leq: (T, T) -> bool, s: seq<T>)
    ensures multiset(SortBy(leq, s)) == multiset(s)
  {
    if s != [] {
      SortKeepsElements(leq, s[1..]);
      InsertKeepsElements(leq, s[0], SortBy(leq, s[1..]));
      assert s == [s[0]] + s[1..];
    }
  }

  lemma SameMembers<T>(s: seq<T>, t: seq<T>)
    requires multiset(s) == multiset(t)
    ensures |s| == |t| && forall x :: x in s <==> x in t
  {
    assert |multiset(s)| == |s| && |multiset(t)| == |t|;
    forall x
      ensures x in s <==> x in t
    {
      assert x in s <==> x in multiset(s);
      assert x in t <==> x in multiset(t);
    }
  }

  /** Sorting keeps a list without repeats free of them. */
  lemma PermutedStaysDistinct<T>(s: seq<T>, t: seq<T>)
    requires multiset(s) == multiset(t) && Distinct(s)
    ensures Distinct(t)
  {
    forall i, j | 0 <= i < j < |t|
      ensures t[i] != t[j]
    {
      if t[i] == t[j] {
        TwiceInTheMultiset(t, i, j);
        OnceInTheMultiset(s, t[i]);
      }
    }
  }

  lemma TwiceInTheMultiset<T>(t: seq<T>, i: nat, j: nat)
    requires i < j < |t| && t[i] == t[j]
    ensures multiset(t)[t[i]] >= 2
  {
    assert t == t[..i] + [t[i]] + t[i + 1..j] + [t[j]] + t[j + 1..];
  }

  lemma {:induction false} OnceInTheMultiset<T>(s: seq<T>, x: T)
    requires Distinct(s)
    ensures multiset(s)[x] <= 1
  {
    if s != [] {
      OnceInTheMultiset(s[1..], x);
      assert s == [s[0]] + s[1..];
      assert x == s[0] ==> x !in multiset(s[1..]);
    }
  }

  // ---- dropping repeats ----

  /** Drops every element equal to the one before it. */
  function Dedup<T(==)>(s: seq<T>): (r: seq<T>) {
    if |s| < 2 then s
    else if s[0] == s[1] then Dedup(s[1..])
    else [s[0]] + Dedup(s[1..])
  }

  lemma {:induction false} DedupKeepsMembers<T>(s: seq<T>)
    ensures forall x :: x in Dedup(s) <==> x in s
    ensures s != [] ==> Dedup(s) != [] && Dedup(s)[0] == s[0]
  {
    if |s| >= 2 {
      DedupKeepsMembers(s[1..]);
      assert s == [s[0]] + s[1..];
    }
  }

  /** Of a sorted list without ties it leaves a sorted one without repeats. */
  lemma {:induction false} DedupOfSorted<T(!new)>(leq: (T, T) -> bool, s: seq<T>)
    requires TotalPreorder(leq) && SortedBy(leq, s) && NoTies(leq, s)
    ensures SortedBy(leq, Dedup(s)) && Distinct(Dedup(s))
  {
    if |s| >= 2 {
      var rest := Dedup(s[1..]);
      DedupOfSorted(leq, s[1..]);
      DedupKeepsMembers(s[1..]);
      if s[0] != s[1] {
        SortedHead(leq, s[0], rest);
        NotBelowTheHead(leq, s);
      }
    }
  }

  lemma NotBelowTheHead<T(!new)>(leq: (T, T) -> bool, s: seq<T>)
    requires TotalPreorder(leq) && SortedBy(leq, s) && NoTies(leq, s) && |s| >= 2 && s[0] != s[1]
    ensures s[0] !in s[1..]
  {
    forall j | 1 <= j < |s|
      ensures s[j] != s[0]
    {
      assert s[0] in s && s[1] in s && leq(s[0], s[1]) && (j == 1 || leq(s[1], s[j]));
    }
  }

  /** Two sorted lists of the same elements, without repeats or ties, are one. */
  lemma {:induction false} SortedIsUnique<T(!new)>(leq: (T, T) -> bool, s: seq<T>, t: seq<T>)
    requires TotalPreorder(leq) && NoTies(leq, s)
    requires SortedBy(leq, s) && SortedBy(leq, t) && Distinct(s) && Distinct(t)
    requires forall x :: x in s <==> x in t
    ensures s == t
  {
    if s == [] {
      assert forall i | 0 <= i < |t| :: t[i] in s;
    } else {
      assert s[0] in t && t != [] && t[0] in s;
      SameHead(leq, s, t);
      forall x
        ensures x in s[1..] <==> x in t[1..]
      {
        InTheRest(s, x);
        InTheRest(t, x);
      }
      SortedIsUnique(leq, s[1..], t[1..]);
      assert s == [s[0]] + s[1..] && t == [t[0]] + t[1..];
    }
  }

  lemma SameHead<T(!new)>(leq: (T, T) -> bool, s: seq<T>, t: seq<T>)
    requires TotalPreorder(leq) && NoTies(leq, s) && SortedBy(leq, s) && SortedBy(leq, t)
    requires s != [] && t != [] && s[0] in t && t[0] in s
    ensures s[0] == t[0]
  {
    var i :| 0 <= i < |t| && t[i] == s[0];
    var j :| 0 <= j < |s| && s[j] == t[0];
    assert leq(t[0], s[0]) || i == 0;
    assert leq(s[0], t[0]) || j == 0;
  }

  lemma InTheRest<T>(s: seq<T>, x: T)
    requires s != [] && Distinct(s)
    ensures x in s[1..] <==> x in s && x != s[0]
  {
    if x in s[1..] {
      var i :| 1 <= i < |s| && s[i] == x;
    }
    if x in s && x != s[0] {
      var i :| 0 <= i < |s| && s[i] == x;
      assert s[1..][i - 1] == x;
    }
  }
}
