/** The elements of a sequence, and regrouping what is appended to one. */
module Sequences {
  ghost function Elements<T>(s: seq<T>): set<T> {
    set x | x in s
  }

  lemma ElementsOfBoth<T>(s: seq<T>, t: seq<T>)
    ensures Elements(s + t) == Elements(s) + Elements(t)
  {
  }

  lemma ElementsOfTail<T>(s: seq<T>, more: seq<T>)
    requires s <= more
    ensures Elements(more) == Elements(s) + Elements(more[|s|..])
  {
    assert more == s + more[|s|..];
  }

  lemma PushOne<T>(before: seq<T>, s: seq<T>, x: T)
    ensures before + s + [x] == before + (s + [x])
    ensures Elements(s + [x]) == Elements(s) + {x}
  {
  }

  lemma TailAfterBoth<T>(a: seq<T>, b: seq<T>, s: seq<T>)
    requires a + b <= s
    ensures a <= s && s[|a|..] == b + s[|a + b|..]
  {
  }

  lemma Regroup<T>(a: seq<T>, b: seq<T>, c: seq<T>)
    ensures a + (b + c) == a + b + c
  {
  }
}
