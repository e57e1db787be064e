/**
  The order in which keyword-argument names are sorted when a cache key is
  derived. Names are Python `str` values and `sorted` compares them
  lexicographically, character by character, a proper prefix coming first.
  NameLt is that strict order; the lemmas below show it is a strict total
  order, which is what makes the sorted keyword part of a key unique.
*/
module Names {

  /** a < b in Python's string order */
  predicate NameLt(a: string, b: string)
    decreases |a|
  {
    |b| > 0 && (|a| == 0 || a[0] < b[0] || (a[0] == b[0] && NameLt(a[1..], b[1..])))
  }

  lemma {:induction false} NameLtIrreflexive(a: string)
    ensures !NameLt(a, a)
    decreases |a|
  {
    if |a| > 0 {
      NameLtIrreflexive(a[1..]);
    }
  }

  lemma {:induction false} NameLtTransitive(a: string, b: string, c: string)
    requires NameLt(a, b) && NameLt(b, c)
    ensures NameLt(a, c)
    decreases |a|
  {
    if |a| > 0 && a[0] == b[0] && b[0] == c[0] {
      NameLtTransitive(a[1..], b[1..], c[1..]);
    }
  }

  lemma NameLtAsymmetric(a: string, b: string)
    requires NameLt(a, b)
    ensures !NameLt(b, a)
  {
    if NameLt(b, a) {
      NameLtTransitive(a, b, a);
      NameLtIrreflexive(a);
    }
  }

  /** Any two different names are ordered one way or the other. */
  lemma {:induction false} NameLtTotal(a: string, b: string)
    requires a != b
    ensures NameLt(a, b) || NameLt(b, a)
    decreases |a|
  {
    if |a| > 0 && |b| > 0 && a[0] == b[0] {
      assert a == [a[0]] + a[1..] && b == [b[0]] + b[1..];
      NameLtTotal(a[1..], b[1..]);
    }
  }
}
