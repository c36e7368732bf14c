/** Strings and their ordering.

    Both Python's `<` on `str` and the document store's `<`, `<=`, `>=`
    filters on string fields compare strings lexicographically by code point
    (UTF-8 byte order agrees with code point order). Dafny's `char` is a
    Unicode scalar value, so `<` on `char` is that order.
 */
module Lexicographic {

  /** Strict lexicographic order: a proper prefix is smaller. */
  function StrLt(a: string, b: string): bool
  {
    if |b| == 0 then false
    else if |a| == 0 then true
    else if a[0] != b[0] then a[0] < b[0]
    else StrLt(a[1..], b[1..])
  }

  /** Python's `a <= b` on strings. */
  predicate StrLe(a: string, b: string)
  {
    a == b || StrLt(a, b)
  }

  lemma {:induction false} StrLtIrreflexive(a: string)
    ensures !StrLt(a, a)
  {
    if |a| > 0 {
      StrLtIrreflexive(a[1..]);
    }
  }

  lemma {:induction false} StrLtTransitive(a: string, b: string, c: string)
    requires StrLt(a, b) && StrLt(b, c)
    ensures StrLt(a, c)
  {
    if |a| > 0 && a[0] == b[0] && b[0] == c[0] {
      StrLtTransitive(a[1..], b[1..], c[1..]);
    }
  }

  /** Any two strings are equal or ordered one way, and not both ways. */
  lemma {:induction false} StrLtTrichotomy(a: string, b: string)
    ensures a == b || StrLt(a, b) || StrLt(b, a)
    ensures !(StrLt(a, b) && StrLt(b, a))
  {
    if |a| > 0 && |b| > 0 && a[0] == b[0] {
      StrLtTrichotomy(a[1..], b[1..]);
      if a[1..] == b[1..] {
        assert a == [a[0]] + a[1..] && b == [b[0]] + b[1..];
      }
    }
  }

  /** `not (a < b)` is `b <= a`: the complement of a `<` filter is a `>=` filter. */
  lemma NotLtIsGe(a: string, b: string)
    ensures !StrLt(a, b) <==> StrLe(b, a)
  {
    StrLtTrichotomy(a, b);
    StrLtIrreflexive(a);
  }

  lemma StrLeTransitive(a: string, b: string, c: string)
    requires StrLe(a, b) && StrLe(b, c)
    ensures StrLe(a, c)
  {
    if StrLt(a, b) && StrLt(b, c) {
      StrLtTransitive(a, b, c);
    }
  }

  /** Comparing two strings that start with prefixes of the same length
      compares the prefixes first and the rests only when the prefixes agree. */
  lemma {:induction false} StrLtConcat(p: string, x: string, q: string, y: string)
    requires |p| == |q|
    ensures StrLt(p + x, q + y) <==> StrLt(p, q) || (p == q && StrLt(x, y))
  {
    if |p| == 0 {
      assert p + x == x && q + y == y;
    } else {
      assert (p + x)[0] == p[0] && (q + y)[0] == q[0];
      if p[0] == q[0] {
        assert (p + x)[1..] == p[1..] + x;
        assert (q + y)[1..] == q[1..] + y;
        StrLtConcat(p[1..], x, q[1..], y);
        assert p == q <==> p[1..] == q[1..] by {
          assert p == [p[0]] + p[1..] && q == [q[0]] + q[1..];
        }
      }
    }
  }

  lemma StrLtSingle(c: char, d: char)
    ensures StrLt([c], [d]) <==> c < d
  {
    assert [c][1..] == [] && [d][1..] == [];
  }
}
