/** What the four folds compute: sums, products and one quotient, whatever the order of the
    operands and whatever else stands between them; and that an expression written as a tree
    evaluates to its value. */
module XmlTheorems {
  import opened Basics
  import opened CppDivision
  import opened XmlArithmetic

  // ---- totals ----

  function Added(x: Outcome, y: Outcome): (r: Outcome) {
    if x.Value? && y.Value? then Value(x.n + y.n) else Undefined
  }

  function Subtracted(x: Outcome, y: Outcome): (r: Outcome) {
    if x.Value? && y.Value? then Value(x.n - y.n) else Undefined
  }

  function Multiplied(x: Outcome, y: Outcome): (r: Outcome) {
    if x.Value? && y.Value? then Value(x.n * y.n) else Undefined
  }

  /** The truncated quotient, if there is one. */
  function Divided(x: Outcome, y: Outcome): (r: Outcome) {
    if x.Value? && y.Value? && y.n != 0 then Value(TruncDiv(x.n, y.n)) else Undefined
  }

  /** One more operand in a total: the operands of Plus and Minus are added up, those of Times
      and Over multiplied. */
  function Join(role: Role, acc: Outcome, x: Outcome): (r: Outcome) {
    match role
    case Plus => Added(acc, x)
    case Minus => Added(acc, x)
    case Times => Multiplied(acc, x)
    case Over => Multiplied(acc, x)
    case Ignored => acc
  }

  function Empty(role: Role): (r: Outcome) {
    Value(if role.Times? || role.Over? then 1 else 0)
  }

  /** The sum or product of the operands that play one role. */
  function Total(op: Operation, role: Role, cs: seq<Child>): (r: Outcome)
    decreases |cs|
  {
    if cs == [] then Empty(role)
    else
      var n := |cs| - 1;
      var before := Total(op, role, cs[..n]);
      if RoleOf(op, cs[n].tag) == role then Join(role, before, Operand(cs[n].tree)) else before
  }

  function Flat(op: Operation, cs: seq<Child>): (r: Outcome) {
    match op
    case Addition => Total(op, Plus, cs)
    case Multiplication => Total(op, Times, cs)
    case Subtraction => Subtracted(Total(op, Plus, cs), Total(op, Minus, cs))
    case Division => Divided(Total(op, Plus, cs), Total(op, Over, cs))
  }

  ghost predicate DividendsFirst(cs: seq<Child>) {
    forall i, j :: 0 <= i < j < |cs| ==> !(RoleOf(Division, cs[i].tag).Over? && RoleOf(Division, cs[j].tag).Plus?)
  }

  lemma {:induction false} DivideAgain(x: Outcome, y: Outcome, z: Outcome)
    ensures Divided(Divided(x, y), z) == Divided(x, Multiplied(y, z))
  {
    if x.Value? && y.Value? && z.Value? {
      ZeroProduct(y.n, z.n);
      if y.n != 0 && z.n != 0 {
        DivDiv(x.n, y.n, z.n);
      }
    }
  }

  lemma {:induction false} ZeroProduct(x: int, y: int)
    ensures x * y == 0 <==> x == 0 || y == 0
  {
    AbsOfProduct(x, y);
  }

  lemma {:induction false} DivideByOne(a: int)
    ensures TruncDiv(a, 1) == a
  {
  }

  lemma {:induction false} NoDivisors(cs: seq<Child>)
    requires forall i :: 0 <= i < |cs| ==> !RoleOf(Division, cs[i].tag).Over?
    ensures Total(Division, Over, cs) == Value(1)
  {
    if cs == [] {
    } else {
      NoDivisors(cs[..|cs| - 1]);
    }
  }

  /** A chain of truncating divisions is one truncating division of the sum of the dividends by
      the product of the divisors; the other folds are their sums and products. */
  lemma {:induction false} FoldIsFlat(op: Operation, cs: seq<Child>)
    requires op.Division? ==> DividendsFirst(cs)
    ensures Fold(op, cs) == Flat(op, cs)
    decreases |cs|
  {
    DivideByOne(0);
    if cs == [] {
    } else {
      var n := |cs| - 1;
      FoldIsFlat(op, cs[..n]);
      if op.Division? {
        hide TruncDiv;
        if RoleOf(op, cs[n].tag).Plus? {
          NoDivisors(cs[..n]);
          NoDivisors(cs);
          var before := Total(op, Plus, cs[..n]);
          if before.Value? {
            DivideByOne(before.n);
          }
          if Total(op, Plus, cs).Value? {
            DivideByOne(Total(op, Plus, cs).n);
          }
        } else if RoleOf(op, cs[n].tag).Over? {
          DivideAgain(Total(op, Plus, cs[..n]), Total(op, Over, cs[..n]), Operand(cs[n].tree));
        }
      }
    }
  }

  // ---- the order of the operands ----

  lemma {:induction false} JoinCommutes(role: Role, acc: Outcome, x: Outcome, y: Outcome)
    ensures Join(role, Join(role, acc, x), y) == Join(role, Join(role, acc, y), x)
  {
    if acc.Value? && x.Value? && y.Value? {
      assert acc.n * x.n * y.n == acc.n * y.n * x.n;
    }
  }

  lemma {:induction false} TakeOut(op: Operation, role: Role, cs: seq<Child>, i: nat)
    requires i < |cs|
    ensures Total(op, role, cs) == if RoleOf(op, cs[i].tag) == role
      then Join(role, Total(op, role, Without(cs, i)), Operand(cs[i].tree))
      else Total(op, role, Without(cs, i))
    decreases |cs|
  {
    hide Join, Operand, RoleOf;
    var n := |cs| - 1;
    if i == n {
      assert Without(cs, i) == cs[..n];
    } else {
      TakeOut(op, role, cs[..n], i);
      assert Without(cs, i)[..n - 1] == Without(cs[..n], i);
      assert Without(cs, i)[n - 1] == cs[n];
      JoinCommutes(role, Total(op, role, Without(cs[..n], i)), Operand(cs[i].tree), Operand(cs[n].tree));
    }
  }

  lemma {:induction false} TotalPermuted(op: Operation, role: Role, cs: seq<Child>, ds: seq<Child>)
    requires multiset(cs) == multiset(ds)
    ensures Total(op, role, cs) == Total(op, role, ds)
    decreases |cs|
  {
    assert |cs| == |multiset(cs)| == |multiset(ds)| == |ds|;
    if cs == [] {
    } else {
      var n := |cs| - 1;
      assert cs[n] in multiset(ds);
      var i :| 0 <= i < |ds| && ds[i] == cs[n];
      SameWithout(cs, ds, n, i);
      assert Without(cs, n) == cs[..n];
      TotalPermuted(op, role, cs[..n], Without(ds, i));
      TakeOut(op, role, ds, i);
    }
  }

  /** Reordering operands changes nothing; for a division, as long as the dividends come first. */
  lemma {:induction false} OrderDoesNotMatter(op: Operation, cs: seq<Child>, ds: seq<Child>)
    requires multiset(cs) == multiset(ds)
    requires op.Division? ==> DividendsFirst(cs) && DividendsFirst(ds)
    ensures Fold(op, cs) == Fold(op, ds)
  {
    FoldIsFlat(op, cs);
    FoldIsFlat(op, ds);
    forall role: Role ensures Total(op, role, cs) == Total(op, role, ds) {
      TotalPermuted(op, role, cs, ds);
    }
  }

  function Literal(tag: string, n: int): (c: Child) { Child(tag, Tree(Number(n), [])) }

  /** That condition is needed: 4 / 2 + 1 is not (4 + 1) / 2. */
  lemma {:induction false} OrderMattersInDivision(cs: seq<Child>, ds: seq<Child>)
    requires cs == [Literal("dividend", 4), Literal("divisor", 2), Literal("dividend", 1)]
    requires ds == [cs[0], cs[2], cs[1]]
    ensures multiset(cs) == multiset(ds) && Fold(Division, cs) == Value(3) && Fold(Division, ds) == Value(2)
  {
    assert cs[..2][..1] == [cs[0]] && [cs[0]][..0] == [];
    assert Fold(Division, cs[..2][..1]) == Value(4);
    assert Fold(Division, cs[..2]) == Value(2);
    assert ds[..2][..1] == [ds[0]] && [ds[0]][..0] == [];
    assert Fold(Division, ds[..2][..1]) == Value(4);
    assert Fold(Division, ds[..2]) == Value(5);
  }

  // ---- when there is no value ----

  /** A child that leaves no value: an operand without one, or a divisor 0. */
  predicate Breaks(op: Operation, c: Child) {
    var role := RoleOf(op, c.tag);
    !role.Ignored? && (Operand(c.tree).Undefined? || (role.Over? && Operand(c.tree) == Value(0)))
  }

  lemma {:induction false} UndefinedIffBroken(op: Operation, cs: seq<Child>)
    ensures Fold(op, cs).Undefined? <==> exists i :: 0 <= i < |cs| && Breaks(op, cs[i])
    decreases |cs|
  {
    if cs == [] {
    } else {
      var n := |cs| - 1;
      UndefinedIffBroken(op, cs[..n]);
      if Fold(op, cs[..n]).Undefined? {
        var i :| 0 <= i < n && Breaks(op, cs[..n][i]);
        assert Breaks(op, cs[i]);
      } else {
        assert forall i :: 0 <= i < n ==> cs[..n][i] == cs[i];
      }
    }
  }

  /** The number that integer division owes: what remains is smaller than the divisor and has the sign
      of the dividend. */
  lemma {:induction false} DividedIs(a: int, b: int, q: int)
    requires b != 0
    ensures Divided(Value(a), Value(b)) == Value(q)
       <==> Abs(a - q * b) < Abs(b) && (a - q * b == 0 || (a - q * b < 0) == (a < 0))
  {
    hide TruncDiv;
    TruncDivIsCpp(a, b, q);
  }

  // ---- the inner expression ----

  /** The element of an operation with its value. */
  function ValueOf(c: Child): (r: Outcome)
    requires OperationOf(c.tag).Some?
  {
    Fold(OperationOf(c.tag).value, c.tree.children)
  }

  /** Element i is the last of an operation. */
  ghost predicate LastInner(cs: seq<Child>, i: nat) {
    && i < |cs| && OperationOf(cs[i].tag).Some?
    && forall j :: i < j < |cs| ==> OperationOf(cs[j].tag).None?
  }

  ghost predicate InnerBreaks(cs: seq<Child>, i: nat) {
    i < |cs| && OperationOf(cs[i].tag).Some? && ValueOf(cs[i]).Undefined?
  }

  /** Of several inner expressions all are evaluated, so that none may be without a value ... */
  lemma {:induction false} EveryInnerIsEvaluated(cs: seq<Child>)
    ensures Inner(cs).Undefined? <==> exists i: nat :: InnerBreaks(cs, i)
    decreases |cs|
  {
    hide OperationOf, Fold;
    if cs == [] {
    } else {
      var n := |cs| - 1;
      EveryInnerIsEvaluated(cs[..n]);
      assert forall i: nat :: i < n ==> InnerBreaks(cs, i) == InnerBreaks(cs[..n], i);
      if Inner(cs).Undefined? && !Inner(cs[..n]).Undefined? {
        assert InnerBreaks(cs, n);
      }
    }
  }

  /** ... and the last one counts; without any the value is 0. */
  lemma {:induction false} LastInnerCounts(cs: seq<Child>, i: nat)
    ensures LastInner(cs, i) && Inner(cs).Value? ==> Inner(cs) == ValueOf(cs[i])
    ensures (forall j :: 0 <= j < |cs| ==> OperationOf(cs[j].tag).None?) ==> Inner(cs) == Value(0)
    decreases |cs|
  {
    hide OperationOf, Fold;
    if cs == [] {
    } else {
      var n := |cs| - 1;
      LastInnerCounts(cs[..n], i);
      assert i < n && LastInner(cs, i) ==> LastInner(cs[..n], i);
    }
  }

  // ---- other elements ----

  /** The operands of an operation without anything else, inside too. */
  function PruneOperands(op: Operation, cs: seq<Child>): (r: seq<Child>)
    decreases cs, 0
  {
    if cs == [] then []
    else
      var n := |cs| - 1;
      PruneOperands(op, cs[..n]) +
      if RoleOf(op, cs[n].tag).Ignored? then [] else [Child(cs[n].tag, PruneOperand(cs[n].tree))]
  }

  function PruneOperand(t: Tree): (r: Tree)
    decreases t.children, 1
  {
    Tree(t.text, if t.text.Number? then [] else PruneInner(t.children))
  }

  function PruneInner(cs: seq<Child>): (r: seq<Child>)
    decreases cs, 0
  {
    if cs == [] then []
    else
      var n := |cs| - 1;
      PruneInner(cs[..n]) +
      match OperationOf(cs[n].tag)
      case None => []
      case Some(op) => [Child(cs[n].tag, Tree(NoNumber, PruneOperands(op, cs[n].tree.children)))]
  }

  /** Elements with other tags never change a result, at any depth. */
  lemma {:induction false} OtherTagsDoNotMatter(op: Operation, cs: seq<Child>)
    ensures Fold(op, PruneOperands(op, cs)) == Fold(op, cs)
    decreases cs, 0
  {
    if cs == [] {
    } else {
      var n := |cs| - 1;
      OtherTagsDoNotMatter(op, cs[..n]);
      var before := PruneOperands(op, cs[..n]);
      if RoleOf(op, cs[n].tag).Ignored? {
        assert before + [] == before;
      } else {
        OtherTagsInOperand(cs[n].tree);
        assert (before + [Child(cs[n].tag, PruneOperand(cs[n].tree))])[..|before|] == before;
      }
    }
  }

  lemma {:induction false} OtherTagsInOperand(t: Tree)
    ensures Operand(PruneOperand(t)) == Operand(t)
    decreases t.children, 1
  {
    if t.text.NoNumber? {
      OtherTagsInside(t.children);
    }
  }

  lemma {:induction false} OtherTagsInside(cs: seq<Child>)
    ensures Inner(PruneInner(cs)) == Inner(cs)
    decreases cs, 0
  {
    if cs == [] {
    } else {
      var n := |cs| - 1;
      OtherTagsInside(cs[..n]);
      var before := PruneInner(cs[..n]);
      match OperationOf(cs[n].tag)
      case None =>
        assert before + [] == before;
      case Some(op) =>
        OtherTagsDoNotMatter(op, cs[n].tree.children);
        var pruned := Child(cs[n].tag, Tree(NoNumber, PruneOperands(op, cs[n].tree.children)));
        assert (before + [pruned])[..|before|] == before;
    }
  }

  // ---- expressions ----

  datatype Expr =
    | Num(n: int)
    | Add(items: seq<Expr>)
    | Mul(factors: seq<Expr>)
    | Sub(minuends: seq<Expr>, subtrahends: seq<Expr>)
    | Div(dividends: seq<Expr>, divisors: seq<Expr>)

  function Meaning(e: Expr): (r: Outcome)
    decreases e
  {
    match e
    case Num(n) => Value(n)
    case Add(items) => Sum(items)
    case Mul(factors) => Product(factors)
    case Sub(minuends, subtrahends) => Subtracted(Sum(minuends), Sum(subtrahends))
    case Div(dividends, divisors) => Divided(Sum(dividends), Product(divisors))
  }

  function Sum(es: seq<Expr>): (r: Outcome)
    decreases es
  {
    if es == [] then Value(0) else Added(Sum(es[..|es| - 1]), Meaning(es[|es| - 1]))
  }

  function Product(es: seq<Expr>): (r: Outcome)
    decreases es
  {
    if es == [] then Value(1) else Multiplied(Product(es[..|es| - 1]), Meaning(es[|es| - 1]))
  }

  /** The tree of an expression. */
  function Encode(e: Expr): (t: Tree)
    decreases e
  {
    match e
    case Num(n) => Tree(Number(n), [])
    case Add(items) => Inside("addition", EncodeAll("item", items))
    case Mul(factors) => Inside("multiplication", EncodeAll("factor", factors))
    case Sub(minuends, subtrahends) =>
      Inside("subtraction", EncodeAll("minuend", minuends) + EncodeAll("subtrahend", subtrahends))
    case Div(dividends, divisors) =>
      Inside("division", EncodeAll("dividend", dividends) + EncodeAll("divisor", divisors))
  }

  function Inside(tag: string, cs: seq<Child>): (t: Tree) {
    Tree(NoNumber, [Child(tag, Tree(NoNumber, cs))])
  }

  function EncodeAll(tag: string, es: seq<Expr>): (cs: seq<Child>)
    ensures |cs| == |es| && forall i :: 0 <= i < |cs| ==> cs[i].tag == tag
    decreases es
  {
    if es == [] then [] else EncodeAll(tag, es[..|es| - 1]) + [Child(tag, Encode(es[|es| - 1]))]
  }

  /** Evaluating the tree of an expression gives the value of the expression. */
  lemma {:induction false} EvaluatesToMeaning(e: Expr)
    ensures Operand(Encode(e)) == Meaning(e)
    decreases e, 0
  {
    hide Fold, Inner, Inside, Total, TruncDiv, DividendsFirst;
    match e
    case Num(n) =>
    case Add(items) =>
      TotalOfEncoded(Addition, Plus, "item", items);
      InsideEvaluates(Addition, "addition", EncodeAll("item", items));
    case Mul(factors) =>
      TotalOfEncoded(Multiplication, Times, "factor", factors);
      InsideEvaluates(Multiplication, "multiplication", EncodeAll("factor", factors));
    case Sub(minuends, subtrahends) =>
      TotalOfEncoded(Subtraction, Plus, "minuend", minuends);
      TotalOfEncoded(Subtraction, Minus, "subtrahend", subtrahends);
      TwoGroups(Subtraction, Minus, EncodeAll("minuend", minuends), EncodeAll("subtrahend", subtrahends));
      InsideEvaluates(Subtraction, "subtraction",
                      EncodeAll("minuend", minuends) + EncodeAll("subtrahend", subtrahends));
    case Div(dividends, divisors) =>
      TotalOfEncoded(Division, Plus, "dividend", dividends);
      TotalOfEncoded(Division, Over, "divisor", divisors);
      TwoGroups(Division, Over, EncodeAll("dividend", dividends), EncodeAll("divisor", divisors));
      InsideEvaluates(Division, "division", EncodeAll("dividend", dividends) + EncodeAll("divisor", divisors));
  }

  lemma {:induction false} InsideEvaluates(op: Operation, tag: string, cs: seq<Child>)
    requires OperationOf(tag) == Some(op)
    requires op.Division? ==> DividendsFirst(cs)
    ensures Operand(Inside(tag, cs)) == Flat(op, cs)
  {
    FoldIsFlat(op, cs);
    var inner := [Child(tag, Tree(NoNumber, cs))];
    assert inner[..0] == [];
    assert Inner(inner) == Fold(op, cs);
  }

  /** The meaning of the operands of one role. */
  function Meant(role: Role, es: seq<Expr>): (r: Outcome) {
    if role.Times? || role.Over? then Product(es) else Sum(es)
  }

  lemma {:induction false} TotalOfEncoded(op: Operation, role: Role, tag: string, es: seq<Expr>)
    requires RoleOf(op, tag) == role && !role.Ignored?
    ensures Total(op, role, EncodeAll(tag, es)) == Meant(role, es)
    decreases es, 1
  {
    if es == [] {
    } else {
      var n := |es| - 1;
      TotalOfEncoded(op, role, tag, es[..n]);
      EvaluatesToMeaning(es[n]);
      assert EncodeAll(tag, es)[..n] == EncodeAll(tag, es[..n]);
    }
  }

  lemma {:induction false} TotalOfGroups(op: Operation, role: Role, cs: seq<Child>, ds: seq<Child>)
    requires forall i :: 0 <= i < |ds| ==> RoleOf(op, ds[i].tag) != role
    ensures Total(op, role, cs + ds) == Total(op, role, cs)
    decreases |ds|
  {
    if ds == [] {
      assert cs + ds == cs;
    } else {
      var n := |ds| - 1;
      assert (cs + ds)[..|cs| + n] == cs + ds[..n];
      TotalOfGroups(op, role, cs, ds[..n]);
    }
  }

  lemma {:induction false} TotalOfLaterGroup(op: Operation, role: Role, cs: seq<Child>, ds: seq<Child>)
    requires forall i :: 0 <= i < |cs| ==> RoleOf(op, cs[i].tag) != role
    ensures Total(op, role, cs + ds) == Total(op, role, ds)
    decreases |ds|
  {
    if ds == [] {
      assert cs + ds == [] + cs;
      TotalOfGroups(op, role, [], cs);
    } else {
      var n := |ds| - 1;
      assert (cs + ds)[..|cs| + n] == cs + ds[..n];
      TotalOfLaterGroup(op, role, cs, ds[..n]);
    }
  }

  lemma {:induction false} TwoGroups(op: Operation, role: Role, cs: seq<Child>, ds: seq<Child>)
    requires role.Minus? || role.Over?
    requires forall i :: 0 <= i < |cs| ==> RoleOf(op, cs[i].tag).Plus?
    requires forall i :: 0 <= i < |ds| ==> RoleOf(op, ds[i].tag) == role
    ensures Total(op, Plus, cs + ds) == Total(op, Plus, cs) && Total(op, role, cs + ds) == Total(op, role, ds)
    ensures op.Division? ==> DividendsFirst(cs + ds)
  {
    TotalOfGroups(op, Plus, cs, ds);
    TotalOfLaterGroup(op, role, cs, ds);
  }
}
