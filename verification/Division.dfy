/** What the remainder register means: polynomial division over GF(2). A polynomial is a
    list of coefficients, highest power first. */
module Division {
  import opened Words
  import opened Remainder

  /** x^Bits plus the truncated polynomial. */
  function Generator(p: Word): (g: seq<bool>)
    ensures |g| == |p| + 1
  {
    [true] + Top(p, |p|)
  }

  function Product(q: seq<bool>, g: seq<bool>): (m: seq<bool>)
    requires |g| > 0
    ensures |m| == |q| + |g| - 1
  {
    if q == [] then Zero(|g| - 1)
    else Xor(if q[0] then g + Zero(|q| - 1) else Zero(|q| + |g| - 1), [false] + Product(q[1..], g))
  }

  /** message * x^Bits + initial register * x^|message| */
  function Dividend(r: Word, bs: seq<bool>): (d: seq<bool>)
    ensures |d| == |bs| + |r|
  {
    Xor(bs + Zero(|r|), Top(r, |r|) + Zero(|bs|))
  }

  /** q * g + t, with t in the |t| lowest coefficients */
  function Recombined(q: seq<bool>, g: seq<bool>, t: Word): (d: seq<bool>)
    requires |g| == |t| + 1
    ensures |d| == |q| + |t|
  {
    Xor(Product(q, g), Zero(|q|) + Top(t, |t|))
  }

  /** The division steps taken on the way. */
  function Quotient(p: Word, r: Word, bs: seq<bool>): (q: seq<bool>)
    requires |p| == |r| > 0
    ensures |q| == |bs|
    decreases |bs|
  {
    if bs == [] then [] else [r[|r| - 1] != bs[0]] + Quotient(p, Step(p, r, bs[0]), bs[1..])
  }

  lemma {:induction false} DividendStep(p: Word, r: Word, bs: seq<bool>)
    requires |p| == |r| > 0 && bs != []
    ensures var n, w := |bs|, |p|;
            var q := r[w - 1] != bs[0];
            Dividend(r, bs) == Xor(if q then Generator(p) + Zero(n - 1) else Zero(n + w),
                                   [false] + Dividend(Step(p, r, bs[0]), bs[1..]))
  {
    var n, w, q, s := |bs|, |p|, r[|p| - 1] != bs[0], Step(p, r, bs[0]);
    var x := if q then Generator(p) + Zero(n - 1) else Zero(n + w);
    var y := [false] + Dividend(s, bs[1..]);
    forall i | 0 <= i < n + w ensures Dividend(r, bs)[i] == Xor(x, y)[i] {
      if 0 < i {
        assert y[i] == Dividend(s, bs[1..])[i - 1];
        if i <= w {
          assert s[w - i] == (w - i >= 1 && r[w - i - 1] != (q && p[w - i]))
              || (i == w && s[0] == (q && p[0])) by {
            assert Shl(r, 1)[w - i] == (w - i >= 1 && r[w - i - 1]);
          }
        }
      }
    }
  }

  lemma {:induction false} RecombinedStep(q: seq<bool>, g: seq<bool>, t: Word)
    requires |g| == |t| + 1 && q != []
    ensures Recombined(q, g, t)
         == Xor(if q[0] then g + Zero(|q| - 1) else Zero(|q| + |t|), [false] + Recombined(q[1..], g, t))
  {
    var x := if q[0] then g + Zero(|q| - 1) else Zero(|q| + |t|);
    var y := [false] + Recombined(q[1..], g, t);
    var m := [false] + Product(q[1..], g);
    forall i | 0 <= i < |q| + |t| ensures Recombined(q, g, t)[i] == Xor(x, y)[i] {
      if i > 0 {
        assert y[i] == Recombined(q[1..], g, t)[i - 1];
        assert m[i] == Product(q[1..], g)[i - 1];
        assert (Zero(|q|) + Top(t, |t|))[i] == (Zero(|q| - 1) + Top(t, |t|))[i - 1];
      }
    }
  }

  /** The register always holds the remainder of the division of what was fed so far. */
  lemma {:induction false} RegisterIsRemainder(p: Word, r: Word, bs: seq<bool>)
    requires |p| == |r| > 0
    ensures Dividend(r, bs) == Recombined(Quotient(p, r, bs), Generator(p), Run(p, r, bs))
    decreases |bs|
  {
    if bs == [] {
      assert Dividend(r, []) == Top(r, |r|);
      assert Recombined([], Generator(p), r) == Top(r, |r|);
    } else {
      DividendStep(p, r, bs);
      var q := Quotient(p, r, bs);
      assert q[1..] == Quotient(p, Step(p, r, bs[0]), bs[1..]);
      RecombinedStep(q, Generator(p), Run(p, r, bs));
      RegisterIsRemainder(p, Step(p, r, bs[0]), bs[1..]);
    }
  }

  lemma {:induction false} TopInjective(t: Word, u: Word)
    requires |t| == |u| && Top(t, |t|) == Top(u, |u|)
    ensures t == u
  {
    forall i | 0 <= i < |t| ensures t[i] == u[i] {
      assert Top(t, |t|)[|t| - 1 - i] == Top(u, |u|)[|t| - 1 - i];
    }
  }

  lemma {:induction false} PeelEqual(b: bool, b': bool, g: seq<bool>, e: seq<bool>, e': seq<bool>)
    requires |e| == |e'| >= |g| - 1 >= 0 && g[0]
    requires Xor(if b then g + Zero(|e| + 1 - |g|) else Zero(|e| + 1), [false] + e)
          == Xor(if b' then g + Zero(|e| + 1 - |g|) else Zero(|e| + 1), [false] + e')
    ensures b == b' && e == e'
  {
    var z := Zero(|e| + 1 - |g|);
    var x, x' := if b then g + z else Zero(|e| + 1), if b' then g + z else Zero(|e| + 1);
    var d, d' := Xor(x, [false] + e), Xor(x', [false] + e');
    assert d[0] == x[0] == b && d'[0] == x'[0] == b';
    forall i | 0 <= i < |e| ensures e[i] == e'[i] {
      assert d[i + 1] == (x[i + 1] != e[i]);
      assert d'[i + 1] == (x'[i + 1] != e'[i]);
    }
  }

  lemma {:induction false} RecombinedInjective(q: seq<bool>, q': seq<bool>, g: seq<bool>, t: Word, t': Word)
    requires |g| == |t| + 1 == |t'| + 1 && g[0] && |q| == |q'|
    requires Recombined(q, g, t) == Recombined(q', g, t')
    ensures q == q' && t == t'
    decreases |q|
  {
    if q == [] {
      assert Recombined(q, g, t) == Top(t, |t|);
      assert Recombined(q', g, t') == Top(t', |t'|);
      TopInjective(t, t');
    } else {
      RecombinedStep(q, g, t);
      RecombinedStep(q', g, t');
      PeelEqual(q[0], q'[0], g, Recombined(q[1..], g, t), Recombined(q'[1..], g, t'));
      RecombinedInjective(q[1..], q'[1..], g, t, t');
      assert q == [q[0]] + q[1..] && q' == [q'[0]] + q'[1..];
    }
  }

  /** ... and nothing else of that width is: a word t is the register's content exactly when
      the dividend is some multiple of the generator plus t. */
  lemma {:induction false} RemainderIsUnique(p: Word, r: Word, bs: seq<bool>, t: Word)
    requires |p| == |r| == |t| > 0
    ensures t == Run(p, r, bs)
       <==> exists q: seq<bool> :: |q| == |bs| && Dividend(r, bs) == Recombined(q, Generator(p), t)
  {
    RegisterIsRemainder(p, r, bs);
    if q: seq<bool> :| |q| == |bs| && Dividend(r, bs) == Recombined(q, Generator(p), t) {
      RecombinedInjective(q, Quotient(p, r, bs), Generator(p), t, Run(p, r, bs));
    }
  }
}
