/** Facts about strings joined with a separator. */
module Text {

  /** True iff the character c does not occur in s. */
  predicate Avoids(s: string, c: char) {
    c !in s
  }

  /** In a + [c] + x with c not in a, the first c sits at index |a|. */
  lemma FirstOccurrence(c: char, a: string, x: string)
    requires Avoids(a, c)
    ensures (a + [c] + x)[|a|] == c
    ensures forall i | 0 <= i < |a| :: (a + [c] + x)[i] != c
  {
    forall i | 0 <= i < |a|
      ensures (a + [c] + x)[i] != c
    {
      assert (a + [c] + x)[i] == a[i];
    }
  }

  /** Joining two strings with a separator that neither left part contains can be undone:
      the first occurrence of the separator marks the join point. */
  lemma SplitAtFirst(c: char, a: string, x: string, b: string, y: string)
    requires Avoids(a, c) && Avoids(b, c)
    requires a + [c] + x == b + [c] + y
    ensures a == b && x == y
  {
    var s := a + [c] + x;
    FirstOccurrence(c, a, x);
    FirstOccurrence(c, b, y);
    assert |a| == |b|;
    assert a == s[..|a|] == b;
    assert x == s[|a| + 1..] == y;
  }
}
