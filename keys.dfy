/**
  Key derivation of the `cached` decorator: a call's positional arguments
  and its keyword arguments become one key, with the keyword arguments
  sorted by name so that the order the caller wrote them in does not matter.

  Keyword arguments arrive as a Python dict, i.e. (name, value) pairs in the
  order the caller wrote them; the language guarantees the names differ,
  which is why the lemmas that need it require DistinctNames.
*/
module CacheKeys {
  import opened Names

  /** The hashable argument values a key is built from. */
  datatype Value = Int(i: int) | Str(s: string) | Tuple(items: seq<Value>)

  /** One keyword argument: its name and its value. */
  type Kwarg = (string, Value)

  predicate DistinctNames(kwargs: seq<Kwarg>) {
    forall i, j :: 0 <= i < j < |kwargs| ==> kwargs[i].0 != kwargs[j].0
  }

  predicate SortedByName(kwargs: seq<Kwarg>) {
    forall i, j :: 0 <= i < j < |kwargs| ==> NameLt(kwargs[i].0, kwargs[j].0)
  }

  /** Inserts p before the first pair whose name it precedes. */
  function InsertByName(p: Kwarg, s: seq<Kwarg>): (r: seq<Kwarg>)
    ensures multiset(r) == multiset(s) + multiset{p}
  {
    if s == [] then [p]
    else if NameLt(p.0, s[0].0) then [p] + s
    else
      assert s == [s[0]] + s[1..];
      [s[0]] + InsertByName(p, s[1..])
  }

  /** `sorted(kwargs.items())`: the same pairs, ordered by name. */
  function SortByName(kwargs: seq<Kwarg>): (r: seq<Kwarg>)
    ensures multiset(r) == multiset(kwargs)
  {
    if kwargs == [] then []
    else
      assert kwargs == [kwargs[0]] + kwargs[1..];
      InsertByName(kwargs[0], SortByName(kwargs[1..]))
  }

  lemma {:induction false} InsertByNameSorted(p: Kwarg, s: seq<Kwarg>)
    requires SortedByName(s)
    requires forall i :: 0 <= i < |s| ==> s[i].0 != p.0
    ensures SortedByName(InsertByName(p, s))
    decreases |s|
  {
    if s == [] {
    } else if NameLt(p.0, s[0].0) {
      PrependSorted(p, s);
    } else {
      NameLtTotal(p.0, s[0].0);
      var tail := InsertByName(p, s[1..]);
      InsertByNameSorted(p, s[1..]);
      forall k | 0 <= k < |tail|
        ensures NameLt(s[0].0, tail[k].0)
      {
        if tail[k] != p {
          assert tail[k] in multiset(tail);
          assert tail[k] in multiset(s[1..]);
          var m :| 0 <= m < |s[1..]| && s[1..][m] == tail[k];
          assert s[m + 1] == tail[k];
        }
      }
      ConsSorted(s[0], tail);
    }
  }

  /** A pair whose name precedes the first of a sorted sequence may go in front. */
  lemma PrependSorted(p: Kwarg, s: seq<Kwarg>)
    requires SortedByName(s) && s != [] && NameLt(p.0, s[0].0)
    ensures SortedByName([p] + s)
  {
    var r := [p] + s;
    forall i, j | 0 <= i < j < |r|
      ensures NameLt(r[i].0, r[j].0)
    {
      if i == 0 && j > 1 {
        NameLtTransitive(p.0, s[0].0, s[j - 1].0);
      }
    }
  }

  /** A pair whose name precedes every name of a sorted sequence may go in front. */
  lemma ConsSorted(q: Kwarg, s: seq<Kwarg>)
    requires SortedByName(s)
    requires forall k :: 0 <= k < |s| ==> NameLt(q.0, s[k].0)
    ensures SortedByName([q] + s)
  {
    var r := [q] + s;
    forall i, j | 0 <= i < j < |r|
      ensures NameLt(r[i].0, r[j].0)
    {
      if i == 0 {
        assert r[j] == s[j - 1];
      } else {
        assert r[i] == s[i - 1] && r[j] == s[j - 1];
      }
    }
  }

  /** With distinct names, sorting puts the names in strictly increasing order. */
  lemma {:induction false} SortByNameSorted(kwargs: seq<Kwarg>)
    requires DistinctNames(kwargs)
    ensures SortedByName(SortByName(kwargs))
  {
    if kwargs != [] {
      var rest := kwargs[1..];
      assert DistinctNames(rest) by {
        forall i, j | 0 <= i < j < |rest| ensures rest[i].0 != rest[j].0 {
          assert rest[i] == kwargs[i + 1] && rest[j] == kwargs[j + 1];
        }
      }
      SortByNameSorted(rest);
      var sorted := SortByName(rest);
      forall i | 0 <= i < |sorted|
        ensures sorted[i].0 != kwargs[0].0
      {
        assert sorted[i] in multiset(sorted);
        assert sorted[i] in multiset(rest);
        var m :| 0 <= m < |rest| && rest[m] == sorted[i];
        assert kwargs[m + 1] == sorted[i];
      }
      InsertByNameSorted(kwargs[0], sorted);
    }
  }

  lemma SortedByNameTail(s: seq<Kwarg>)
    requires SortedByName(s) && s != []
    ensures SortedByName(s[1..])
  {
    forall a, b | 0 <= a < b < |s[1..]| ensures NameLt(s[1..][a].0, s[1..][b].0) {
      assert s[1..][a] == s[a + 1] && s[1..][b] == s[b + 1];
    }
  }

  /** Name-sorted arrangements of the same pairs start with the same pair. */
  lemma SortedByNameSameHead(s: seq<Kwarg>, t: seq<Kwarg>)
    requires SortedByName(s) && SortedByName(t)
    requires multiset(s) == multiset(t) && s != []
    ensures t != [] && s[0] == t[0]
  {
    assert s[0] in multiset(t);
    var j :| 0 <= j < |t| && t[j] == s[0];
    assert t[0] in multiset(s);
    var i :| 0 <= i < |s| && s[i] == t[0];
    if i > 0 && j > 0 {
      NameLtAsymmetric(s[0].0, t[0].0);
      assert false;
    }
  }

  lemma MultisetSameHeadTail(s: seq<Kwarg>, t: seq<Kwarg>)
    requires s != [] && t != [] && s[0] == t[0]
    requires multiset(s) == multiset(t)
    ensures multiset(s[1..]) == multiset(t[1..])
  {
    assert s == [s[0]] + s[1..] && t == [t[0]] + t[1..];
    assert multiset(s) == multiset{s[0]} + multiset(s[1..]);
    assert multiset(t) == multiset{t[0]} + multiset(t[1..]);
    forall x ensures multiset(s[1..])[x] == multiset(t[1..])[x] {
      assert multiset(s)[x] == multiset(t)[x];
    }
  }

  /** Two name-sorted arrangements of the same pairs are the same sequence. */
  lemma {:induction false} SortedByNameUnique(s: seq<Kwarg>, t: seq<Kwarg>)
    requires SortedByName(s) && SortedByName(t)
    requires multiset(s) == multiset(t)
    ensures s == t
    decreases |s|
  {
    if s == [] {
      assert |multiset(t)| == 0;
    } else {
      SortedByNameSameHead(s, t);
      MultisetSameHeadTail(s, t);
      SortedByNameTail(s);
      SortedByNameTail(t);
      SortedByNameUnique(s[1..], t[1..]);
      assert s == [s[0]] + s[1..] && t == [t[0]] + t[1..];
    }
  }

  /** Sorting forgets the order the keyword arguments were written in. */
  lemma SortByNameOrderIrrelevant(k1: seq<Kwarg>, k2: seq<Kwarg>)
    requires DistinctNames(k1) && DistinctNames(k2)
    requires multiset(k1) == multiset(k2)
    ensures SortByName(k1) == SortByName(k2)
  {
    SortByNameSorted(k1);
    SortByNameSorted(k2);
    SortedByNameUnique(SortByName(k1), SortByName(k2));
  }

  // ---------------------------------------------------------------------
  // The key as the source builds it: `args + tuple(sorted(kwargs.items()))`

  /** A keyword argument as the 2-tuple `(name, value)` inside the key. */
  function PairValue(p: Kwarg): Value {
    Tuple([Str(p.0), p.1])
  }

  /** The flat key tuple: the positional values followed by the sorted pairs. */
  function FlatKey(args: seq<Value>, kwargs: seq<Kwarg>): seq<Value> {
    var sorted := SortByName(kwargs);
    args + seq(|sorted|, i requires 0 <= i < |sorted| => PairValue(sorted[i]))
  }

  /** The flat key starts with the positional arguments in order and ends with
      one 2-tuple per keyword argument, in name order. */
  lemma FlatKeyLayout(args: seq<Value>, kwargs: seq<Kwarg>)
    requires DistinctNames(kwargs)
    ensures |FlatKey(args, kwargs)| == |args| + |kwargs|
    ensures FlatKey(args, kwargs)[..|args|] == args
    ensures exists sorted: seq<Kwarg> ::
      && SortedByName(sorted)
      && multiset(sorted) == multiset(kwargs)
      && FlatKey(args, kwargs)[|args|..] == seq(|sorted|, i requires 0 <= i < |sorted| => PairValue(sorted[i]))
  {
    var sorted := SortByName(kwargs);
    assert |multiset(sorted)| == |multiset(kwargs)|;
    SortByNameSorted(kwargs);
    assert FlatKey(args, kwargs)[|args|..] == seq(|sorted|, i requires 0 <= i < |sorted| => PairValue(sorted[i]));
  }

  /** The source's key does not depend on the order of keyword arguments. */
  lemma FlatKeyKeywordOrderIrrelevant(args: seq<Value>, k1: seq<Kwarg>, k2: seq<Kwarg>)
    requires DistinctNames(k1) && DistinctNames(k2)
    requires multiset(k1) == multiset(k2)
    ensures FlatKey(args, k1) == FlatKey(args, k2)
  {
    SortByNameOrderIrrelevant(k1, k2);
  }

  /** The source's key cannot tell a positional 2-tuple `(name, value)` from
      the keyword argument `name=value`: two different calls share a key. */
  lemma FlatKeyCollision(name: string, v: Value)
    ensures FlatKey([PairValue((name, v))], []) == FlatKey([], [(name, v)])
    ensures DeriveKey([PairValue((name, v))], []) != DeriveKey([], [(name, v)])
  {
    assert SortByName([(name, v)]) == [(name, v)];
  }

  // ---------------------------------------------------------------------
  // The key with positional and keyword parts kept apart

  /** A cache key: the positional values, then the keyword pairs by name. */
  datatype Key = Key(positional: seq<Value>, keywords: seq<Kwarg>)

  function DeriveKey(args: seq<Value>, kwargs: seq<Kwarg>): Key {
    Key(args, SortByName(kwargs))
  }

  /** Layout of a derived key: the positional arguments in their given order,
      then exactly the keyword pairs, strictly ordered by name. */
  lemma DeriveKeyLayout(args: seq<Value>, kwargs: seq<Kwarg>)
    requires DistinctNames(kwargs)
    ensures DeriveKey(args, kwargs).positional == args
    ensures multiset(DeriveKey(args, kwargs).keywords) == multiset(kwargs)
    ensures SortedByName(DeriveKey(args, kwargs).keywords)
  {
    SortByNameSorted(kwargs);
  }

  /** Two calls derive the same key exactly when they pass the same positional
      values in the same order and the same keyword pairs in any order. */
  lemma DeriveKeyEqualIff(a1: seq<Value>, k1: seq<Kwarg>, a2: seq<Value>, k2: seq<Kwarg>)
    requires DistinctNames(k1) && DistinctNames(k2)
    ensures DeriveKey(a1, k1) == DeriveKey(a2, k2) <==> a1 == a2 && multiset(k1) == multiset(k2)
  {
    if a1 == a2 && multiset(k1) == multiset(k2) {
      SortByNameOrderIrrelevant(k1, k2);
    }
  }

  /** Positions matter: exchanging two different positional values changes the key. */
  lemma PositionalSwapChangesKey(args: seq<Value>, kwargs: seq<Kwarg>, i: nat, j: nat)
    requires i < j < |args| && args[i] != args[j]
    ensures DeriveKey(args[i := args[j]][j := args[i]], kwargs) != DeriveKey(args, kwargs)
  {
    assert args[i := args[j]][j := args[i]][i] != args[i];
  }
}
