/** Arithmetic on reals that more than one component uses: products and quotients by name, so that
    proofs reason about them through a few facts. */
module Reals {
  function Min(a: real, b: real): real {
    if a <= b then a else b
  }

  function Abs(x: real): real {
    if x < 0.0 then -x else x
  }

  function Times(x: real, y: real): real {
    x * y
  }

  function Over(x: real, y: real): real
    requires y != 0.0
  {
    x / y
  }

  lemma TimesOrder(p: real, q: real, d: real)
    requires p <= q && d >= 0.0
    ensures Times(p, d) <= Times(q, d) && Times(d, p) <= Times(d, q)
    ensures Times(0.0, d) == 0.0 && Times(1.0, d) == d
  {
    assert (q - p) * d >= 0.0;
  }

  lemma TimesDistributes(p: real, q: real, d: real)
    ensures Times(p - q, d) == Times(p, d) - Times(q, d)
    ensures Times(p + q, d) == Times(p, d) + Times(q, d)
    ensures Times(p, d) == Times(d, p)
    ensures Times(-p, d) == -Times(p, d)
  {
  }

  lemma OverOrder(a: real, b: real, s: real)
    requires 0.0 < s && a <= b
    ensures Over(a, s) <= Over(b, s)
    ensures Over(s, s) == 1.0 && Over(0.0, s) == 0.0
    ensures Times(Over(a, s), s) == a
  {
    assert (Over(b, s) - Over(a, s)) * s == b - a;
  }
}
