/** Texts as sequences of UTF-16 code units, in lexicographic order: the order of the built-in sort. */
module TextOrder {
  import opened Collections

  type Unit = u: int | 0 <= u < 0x10000
  type Text = seq<Unit>

  /** A comparison of texts, "not after"; a total preorder when it comes from a locale. */
  type Collation = (Text, Text) -> bool

  predicate Le(a: Text, b: Text)
  {
    a == [] || (b != [] && (a[0] < b[0] || (a[0] == b[0] && Le(a[1..], b[1..]))))
  }

  lemma {:induction false} LeTotal(a: Text, b: Text)
    ensures Le(a, b) || Le(b, a)
  {
    if a != [] && b != [] && a[0] == b[0] {
      LeTotal(a[1..], b[1..]);
    }
  }

  lemma {:induction false} LeTransitive(a: Text, b: Text, c: Text)
    requires Le(a, b) && Le(b, c)
    ensures Le(a, c)
  {
    if a != [] && a[0] == b[0] == c[0] {
      LeTransitive(a[1..], b[1..], c[1..]);
    }
  }

  lemma {:induction false} LeAntisymmetric(a: Text, b: Text)
    requires Le(a, b) && Le(b, a)
    ensures a == b
  {
    if a != [] {
      LeAntisymmetric(a[1..], b[1..]);
      assert a == [a[0]] + a[1..] && b == [b[0]] + b[1..];
    }
  }

  /** Whether two texts first differ at a place, and there `a` has the smaller unit. */
  predicate SmallerAt(a: Text, b: Text, i: nat)
  {
    i < |a| && i < |b| && a[i] < b[i] && forall k | 0 <= k < i :: a[k] == b[k]
  }

  /** Two texts are ordered by the first unit in which they differ; a proper beginning comes first. */
  lemma {:induction false} LeExact(a: Text, b: Text)
    ensures Le(a, b) <==> a <= b || exists i: nat :: SmallerAt(a, b, i)
  {
    if a != [] && b != [] && a[0] == b[0] {
      var x, y := a[1..], b[1..];
      LeExact(x, y);
      assert a == [a[0]] + x && b == [b[0]] + y;
      if i: nat :| SmallerAt(x, y, i) {
        assert SmallerAt(a, b, i + 1);
      }
      if i: nat :| SmallerAt(a, b, i) {
        assert SmallerAt(x, y, i - 1);
      }
    } else if a != [] && b != [] && a[0] < b[0] {
      assert SmallerAt(a, b, 0);
    }
  }

  lemma LeIsTotalOrder()
    ensures TotalPreorder(Le)
    ensures forall a, b | Le(a, b) && Le(b, a) :: a == b
  {
    forall a, b ensures Le(a, b) || Le(b, a) { LeTotal(a, b); }
    forall a, b, c | Le(a, b) && Le(b, c) ensures Le(a, c) { LeTransitive(a, b, c); }
    forall a, b | Le(a, b) && Le(b, a) ensures a == b { LeAntisymmetric(a, b); }
  }

  // ----- a comparison that finds different texts equal

  const A_WITH_ACUTE: Unit := 0xE1
  const SMALL_A: Unit := 0x61
  const COMBINING_ACUTE: Unit := 0x301

  /** A text with U+00E1 written as its canonical decomposition. */
  function Decomposed(t: Text): Text
  {
    if t == [] then [] else (if t[0] == A_WITH_ACUTE then [SMALL_A, COMBINING_ACUTE] else [t[0]]) + Decomposed(t[1..])
  }

  /** A comparison that respects this canonical equivalence, as a locale's does. */
  predicate DecomposedLe(a: Text, b: Text) { Le(Decomposed(a), Decomposed(b)) }

  /** Such a comparison is a total preorder and finds two different texts equal. */
  lemma DecomposedLeTies()
    ensures TotalPreorder(DecomposedLe)
    ensures DecomposedLe([A_WITH_ACUTE], [SMALL_A, COMBINING_ACUTE]) && DecomposedLe([SMALL_A, COMBINING_ACUTE], [A_WITH_ACUTE])
  {
    LeIsTotalOrder();
    forall a, b ensures DecomposedLe(a, b) || DecomposedLe(b, a) {
      LeTotal(Decomposed(a), Decomposed(b));
    }
    forall a, b, c | DecomposedLe(a, b) && DecomposedLe(b, c) ensures DecomposedLe(a, c) {
      LeTransitive(Decomposed(a), Decomposed(b), Decomposed(c));
    }
    assert [A_WITH_ACUTE][1..] == [] && [SMALL_A, COMBINING_ACUTE][1..] == [COMBINING_ACUTE] && [COMBINING_ACUTE][1..] == [];
    assert Decomposed([A_WITH_ACUTE]) == Decomposed([SMALL_A, COMBINING_ACUTE]);
  }
}
