/** Sequences that stand inside others. */
module Parts {
  /** The sequence x stands in a at position k. */
  predicate Has<T(==)>(a: seq<T>, x: seq<T>, k: nat) {
    k + |x| <= |a| && forall i {:trigger x[i]} | 0 <= i < |x| :: a[k + i] == x[i]
  }

  lemma HasPart<T>(a: seq<T>, k: nat, x: seq<T>, y: seq<T>)
    requires Has(a, x + y, k)
    ensures Has(a, x, k) && Has(a, y, k + |x|)
    ensures k + |x| + |y| <= |a|
  {
    forall i | 0 <= i < |x|
      ensures a[k + i] == x[i]
    {
      assert (x + y)[i] == x[i];
    }
    forall i | 0 <= i < |y|
      ensures a[k + |x| + i] == y[i]
    {
      assert (x + y)[|x| + i] == y[i];
    }
  }

  lemma HasAll<T>(a: seq<T>)
    ensures Has(a, a, 0)
  {
  }

  lemma HasLast<T>(a: seq<T>, x: seq<T>)
    ensures Has(a + x, x, |a|)
  {
  }

  lemma HasFirst<T>(a: seq<T>, x: seq<T>, k: nat)
    requires Has(a, x, k) && x != []
    ensures k < |a| && a[k] == x[0]
  {
    assert a[k + 0] == x[0];
  }

  lemma HasInLeft<T>(a: seq<T>, b: seq<T>, x: seq<T>, k: nat)
    requires Has(a, x, k)
    ensures Has(a + b, x, k)
  {
  }

  lemma HasInHas<T>(a: seq<T>, b: seq<T>, x: seq<T>, j: nat, k: nat)
    requires Has(a, b, j) && Has(b, x, k)
    ensures Has(a, x, j + k)
  {
    forall i | 0 <= i < |x|
      ensures a[j + k + i] == x[i]
    {
      assert b[k + i] == x[i] && a[j + (k + i)] == b[k + i];
    }
  }
}
