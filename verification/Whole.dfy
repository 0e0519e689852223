/** Products and quotients of unsigned numbers, written as repeated addition and subtraction so that a
    proof sees `*`, `/` and `%` only where it asks for them. */
module Whole {

  function Times(a: nat, b: nat): nat {
    if a == 0 then 0 else Times(a - 1, b) + b
  }

  function Div(a: nat, b: nat): nat
    requires b > 0
  {
    if a < b then 0 else Div(a - b, b) + 1
  }

  function Mod(a: nat, b: nat): nat
    requires b > 0
  {
    if a < b then a else Mod(a - b, b)
  }

  lemma {:induction false} TimesIsProduct(a: nat, b: nat)
    ensures Times(a, b) == a * b
  {
    if a > 0 {
      TimesIsProduct(a - 1, b);
    }
  }

  lemma Unique(a: nat, b: nat, q: nat, r: nat)
    requires b > 0 && a == b * q + r && r < b
    ensures q == a / b && r == a % b
  {
    var q', r' := a / b, a % b;
    assert a == b * q' + r';
    if q < q' {
      Grows(b, q + 1, q');
    } else if q' < q {
      Grows(b, q' + 1, q);
    }
  }

  lemma Grows(b: nat, x: nat, y: nat)
    requires x <= y
    ensures b * x <= b * y
  {
  }

  /** A multiple that is not zero is at least as far from zero as the number itself. */
  lemma NonzeroMultiple(m: int, d: int)
    requires m > 0
    ensures d >= 1 ==> m * d >= m
    ensures d <= -1 ==> m * d <= -m
  {
  }

  lemma NextRow(row: nat, width: nat)
    ensures (row + 1) * width == row * width + width
  {
  }

  /** In a table stored row by row, each row ends before the later ones begin. */
  lemma RowFits(row: nat, rows: nat, width: nat)
    requires row < rows
    ensures row * width + width <= rows * width
  {
    Grows(width, row + 1, rows);
  }

  lemma {:induction false} DivModExact(a: nat, b: nat)
    requires b > 0
    ensures a == b * Div(a, b) + Mod(a, b) && Mod(a, b) < b
  {
    if a >= b {
      DivModExact(a - b, b);
      assert b * (Div(a - b, b) + 1) == b * Div(a - b, b) + b;
    }
  }

  /** The source's `/` and `%` on unsigned numbers. */
  lemma DivModAreQuotient(a: nat, b: nat)
    requires b > 0
    ensures Div(a, b) == a / b && Mod(a, b) == a % b
  {
    DivModExact(a, b);
    Unique(a, b, Div(a, b), Mod(a, b));
  }

  lemma {:induction false} DivModAtMost(a: nat, b: nat)
    requires b > 0
    ensures Div(a, b) <= a && Mod(a, b) <= a && Mod(a, b) < b
  {
    if a >= b {
      DivModAtMost(a - b, b);
    }
  }

  lemma DivBelow(a: nat, n: nat, b: nat)
    requires b > 0 && a < Times(n, b)
    ensures Div(a, b) < n
  {
    TimesIsProduct(n, b);
    DivModExact(a, b);
    if n <= Div(a, b) {
      Grows(b, n, Div(a, b));
    }
  }

  /** Two quotients in a row take a number apart; this puts it together again. */
  lemma Recompose(a: nat, inner: nat, outer: nat)
    requires inner > 0 && outer > 0
    ensures a == (Div(Div(a, inner), outer) * outer + Mod(Div(a, inner), outer)) * inner + Mod(a, inner)
  {
    var q := Div(a, inner);
    assert q == Div(q, outer) * outer + Mod(q, outer) by { DivModExact(q, outer); }
    assert a == q * inner + Mod(a, inner) by { DivModExact(a, inner); }
    Substitute(a, q, Div(q, outer) * outer + Mod(q, outer), inner, Mod(a, inner));
  }

  lemma Substitute(a: nat, q: nat, p: nat, b: nat, r: nat)
    requires q == p && a == q * b + r
    ensures a == p * b + r
  {
  }
}
