/** Integer division as C++ does it, in contrast to Dafny's own. */
module CppDivision {

  function Abs(x: int): (r: nat) { if x < 0 then -x else x }

  function NatDiv(x: nat, y: nat): (q: nat)
    requires y != 0
    ensures x == 0 ==> q == 0
  {
    x / y
  }

  /** The quotient, rounded toward zero. */
  function TruncDiv(a: int, b: int): (q: int)
    requires b != 0
  {
    var d: int := NatDiv(Abs(a), Abs(b));
    if (a < 0) == (b < 0) then d else -d
  }

  lemma {:induction false} ProductIsNat(x: nat, y: nat)
    ensures x * y >= 0
  {
  }

  lemma {:induction false} AbsOfProduct(x: int, y: int)
    ensures Abs(x * y) == Abs(x) * Abs(y)
    ensures x != 0 && y != 0 ==> x * y != 0 && ((x * y < 0) <==> ((x < 0) != (y < 0)))
  {
    ProductIsNat(Abs(x), Abs(y));
    if x < 0 && y < 0 {
      assert x * y == (-x) * (-y);
    } else if x < 0 {
      assert x * y == -((-x) * y);
    } else if y < 0 {
      assert x * y == -(x * (-y));
    }
  }

  lemma {:induction false} QuotientIs(a: int, b: int, q: int, r: int)
    requires a == q * b + r && 0 <= r < b
    ensures q == a / b
  {
    var d := a / b;
    assert a == d * b + a % b;
    assert (q - d) * b == a % b - r;
    assert (d - q) * b == -((q - d) * b);
    if q > d {
      Multiple(q - d, b);
    } else if q < d {
      Multiple(d - q, b);
    }
  }

  lemma {:induction false} Multiple(k: int, b: int)
    requires k > 0 && b > 0
    ensures k * b >= b
  {
    ProductIsNat(k - 1, b);
    assert k * b == (k - 1) * b + b;
  }

  lemma {:induction false} NatDivDiv(a: nat, b: nat, c: nat)
    requires b > 0 && c > 0
    ensures b * c > 0 && a / b / c == a / (b * c)
  {
    ProductIsNat(b - 1, c);
    var q, r := a / b, a % b;
    var q', r' := q / c, q % c;
    Regroup(q', r', r, b, c);
    RemainderOfBoth(r', r, b, c);
    QuotientIs(a, b * c, q', r' * b + r);
  }

  lemma {:induction false} RemainderOfBoth(r': nat, r: nat, b: nat, c: nat)
    requires r' < c && r < b
    ensures 0 <= r' * b + r < b * c
  {
    ProductIsNat(r', b);
    ProductIsNat(c - 1 - r', b);
    assert (c - 1 - r') * b == c * b - b - r' * b;
  }

  lemma {:induction false} Regroup(q: int, r': int, r: int, b: int, c: int)
    ensures (q * c + r') * b + r == q * (b * c) + (r' * b + r)
  {
    assert (q * c + r') * b == q * c * b + r' * b;
    assert q * c * b == q * (b * c);
  }

  /** Dividing twice is dividing by the product. */
  lemma {:induction false} DivDiv(a: int, b: int, c: int)
    requires b != 0 && c != 0
    ensures b * c != 0 && TruncDiv(TruncDiv(a, b), c) == TruncDiv(a, b * c)
  {
    AbsOfProduct(b, c);
    NatDivDiv(Abs(a), Abs(b), Abs(c));
    DivDivSigns(a, b, c, b * c);
  }

  lemma {:induction false} DivDivSigns(a: int, b: int, c: int, p: int)
    requires b != 0 && c != 0 && p != 0 && ((p < 0) <==> ((b < 0) != (c < 0)))
    requires NatDiv(NatDiv(Abs(a), Abs(b)), Abs(c)) == NatDiv(Abs(a), Abs(p))
    ensures TruncDiv(TruncDiv(a, b), c) == TruncDiv(a, p)
  {
    hide NatDiv;
    assert Abs(TruncDiv(a, b)) == NatDiv(Abs(a), Abs(b));
  }

  /** The one number that leaves a remainder smaller than the divisor and with the sign
      of the dividend. */
  lemma {:induction false} TruncDivIsCpp(a: int, b: int, q: int)
    requires b != 0
    ensures q == TruncDiv(a, b) <==> Abs(a - q * b) < Abs(b) && (a - q * b == 0 || (a - q * b < 0) == (a < 0))
  {
    var d, r := Abs(a) / Abs(b), Abs(a) % Abs(b);
    var q0 := TruncDiv(a, b);
    assert Abs(a) == d * Abs(b) + r;
    RemainderHasSignOfDividend(a, b);
    if Abs(a - q * b) < Abs(b) && (a - q * b == 0 || (a - q * b < 0) == (a < 0)) && q != q0 {
      assert (q - q0) * b == (a - q0 * b) - (a - q * b);
      AbsOfProduct(q - q0, b);
      Multiple(Abs(q - q0), Abs(b));
      assert false;
    }
  }

  lemma {:induction false} RemainderHasSignOfDividend(a: int, b: int)
    requires b != 0
    ensures a - TruncDiv(a, b) * b == if a < 0 then -(Abs(a) % Abs(b)) else Abs(a) % Abs(b)
  {
    var d, r := Abs(a) / Abs(b), Abs(a) % Abs(b);
    assert Abs(a) == d * Abs(b) + r;
    Signs(d, b);
  }

  lemma {:induction false} Signs(d: int, b: int)
    ensures d * (-b) == -(d * b) && (-d) * b == -(d * b)
  {
  }
}
