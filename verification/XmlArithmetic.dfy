/** The evaluator of arithmetic expressions held in a property tree: four folds that call each
    other through the tag of an inner expression. */
module XmlArithmetic {
  import opened Basics
  import opened CppDivision

  /** What std::stoi makes of the text of an element: a number, or an exception. */
  datatype Text = Number(n: int) | NoNumber

  datatype Tree = Tree(text: Text, children: seq<Child>)
  datatype Child = Child(tag: string, tree: Tree)

  /** Undefined: some divisor that was reached is 0. */
  datatype Outcome = Value(n: int) | Undefined

  datatype Operation = Addition | Subtraction | Multiplication | Division
  function OperationOf(tag: string): (op: Option<Operation>) {
    if tag == "addition" then Some(Addition)
    else if tag == "subtraction" then Some(Subtraction)
    else if tag == "multiplication" then Some(Multiplication)
    else if tag == "division" then Some(Division)
    else None
  }

  /** What a child does to the accumulator of its operation. */
  datatype Role = Plus | Minus | Times | Over | Ignored

  function RoleOf(op: Operation, tag: string): (role: Role) {
    match op
    case Addition => if tag == "item" then Plus else Ignored
    case Multiplication => if tag == "factor" then Times else Ignored
    case Subtraction => if tag == "minuend" then Plus else if tag == "subtrahend" then Minus else Ignored
    case Division => if tag == "dividend" then Plus else if tag == "divisor" then Over else Ignored
  }

  // ---- the folds ----

  function Start(op: Operation): (acc: int) { if op.Multiplication? then 1 else 0 }

  function Apply(role: Role, acc: Outcome, x: Outcome): (acc': Outcome) {
    if role.Ignored? then acc
    else if acc.Undefined? || x.Undefined? then Undefined
    else match role
      case Plus => Value(acc.n + x.n)
      case Minus => Value(acc.n - x.n)
      case Times => Value(acc.n * x.n)
      case Over => if x.n == 0 then Undefined else Value(TruncDiv(acc.n, x.n))
  }

  /** processAdd, processSub, processMul and processDiv on the children of an element. */
  function Fold(op: Operation, cs: seq<Child>): (r: Outcome)
    decreases cs, 0
  {
    if cs == [] then Value(Start(op))
    else
      var n := |cs| - 1;
      Apply(RoleOf(op, cs[n].tag), Fold(op, cs[..n]), Operand(cs[n].tree))
  }

  /** An operand: its number, or the expression inside. */
  function Operand(t: Tree): (r: Outcome)
    decreases t.children, 1
  {
    if t.text.Number? then Value(t.text.n) else Inner(t.children)
  }

  /** callType on the children of an element: every inner expression is evaluated, the last one counts. */
  function Inner(cs: seq<Child>): (r: Outcome)
    decreases cs, 0
  {
    if cs == [] then Value(0)
    else
      var n := |cs| - 1;
      var before := Inner(cs[..n]);
      match OperationOf(cs[n].tag)
      case None => before
      case Some(op) => if before.Undefined? then Undefined else Fold(op, cs[n].tree.children)
  }

  // ---- the evaluator ----

  method CallType(subtree: Tree) returns (result: Outcome)
    ensures result == Inner(subtree.children)
    decreases subtree, 0
  {
    var cs := subtree.children;
    var r := 0;
    for i := 0 to |cs|
      invariant Inner(cs[..i]) == Value(r)
    {
      assert cs[..i + 1][..i] == cs[..i];
      var p := Value(r);
      if cs[i].tag == "addition" {
        p := ProcessAdd(cs[i].tree);
      } else if cs[i].tag == "subtraction" {
        p := ProcessSub(cs[i].tree);
      } else if cs[i].tag == "multiplication" {
        p := ProcessMul(cs[i].tree);
      } else if cs[i].tag == "division" {
        p := ProcessDiv(cs[i].tree);
      }
      if p.Undefined? {
        StaysUndefined(cs, i + 1);
        return Undefined;
      }
      r := p.n;
    }
    assert cs[..|cs|] == cs;
    result := Value(r);
  }

  lemma {:induction false} StaysUndefined(cs: seq<Child>, i: nat)
    requires i <= |cs| && Inner(cs[..i]).Undefined?
    ensures Inner(cs).Undefined?
    decreases |cs|
  {
    if i == |cs| {
      assert cs[..i] == cs;
    } else {
      assert cs[..|cs| - 1][..i] == cs[..i];
      StaysUndefined(cs[..|cs| - 1], i);
    }
  }

  lemma {:induction false} FoldStaysUndefined(op: Operation, cs: seq<Child>, i: nat)
    requires i <= |cs| && Fold(op, cs[..i]).Undefined?
    ensures Fold(op, cs).Undefined?
    decreases |cs|
  {
    if i == |cs| {
      assert cs[..i] == cs;
    } else {
      assert cs[..|cs| - 1][..i] == cs[..i];
      FoldStaysUndefined(op, cs[..|cs| - 1], i);
    }
  }

  /** The number of the element, or what callType makes of it. */
  method Number(t: Tree) returns (result: Outcome)
    ensures result == Operand(t)
    decreases t, 1
  {
    match t.text
    case Number(n) => result := Value(n);
    case NoNumber => result := CallType(t);
  }

  method ProcessAdd(subtree: Tree) returns (result: Outcome)
    ensures result == Fold(Addition, subtree.children)
    decreases subtree, 0
  {
    var cs := subtree.children;
    var addResult := 0;
    for i := 0 to |cs|
      invariant Fold(Addition, cs[..i]) == Value(addResult)
    {
      assert cs[..i + 1][..i] == cs[..i];
      if cs[i].tag == "item" {
        var x := Number(cs[i].tree);
        if x.Undefined? {
          FoldStaysUndefined(Addition, cs, i + 1);
          return Undefined;
        }
        addResult := addResult + x.n;
      }
    }
    assert cs[..|cs|] == cs;
    result := Value(addResult);
  }

  method ProcessMul(subtree: Tree) returns (result: Outcome)
    ensures result == Fold(Multiplication, subtree.children)
    decreases subtree, 0
  {
    var cs := subtree.children;
    var mulResult := 1;
    for i := 0 to |cs|
      invariant Fold(Multiplication, cs[..i]) == Value(mulResult)
    {
      assert cs[..i + 1][..i] == cs[..i];
      if cs[i].tag == "factor" {
        var x := Number(cs[i].tree);
        if x.Undefined? {
          FoldStaysUndefined(Multiplication, cs, i + 1);
          return Undefined;
        }
        mulResult := mulResult * x.n;
      }
    }
    assert cs[..|cs|] == cs;
    result := Value(mulResult);
  }

  method ProcessSub(subtree: Tree) returns (result: Outcome)
    ensures result == Fold(Subtraction, subtree.children)
    decreases subtree, 0
  {
    var cs := subtree.children;
    var subResult := 0;
    for i := 0 to |cs|
      invariant Fold(Subtraction, cs[..i]) == Value(subResult)
    {
      assert cs[..i + 1][..i] == cs[..i];
      if cs[i].tag == "minuend" || cs[i].tag == "subtrahend" {
        var x := Number(cs[i].tree);
        if x.Undefined? {
          FoldStaysUndefined(Subtraction, cs, i + 1);
          return Undefined;
        }
        if cs[i].tag == "minuend" {
          subResult := subResult + x.n;
        } else {
          subResult := subResult - x.n;
        }
      }
    }
    assert cs[..|cs|] == cs;
    result := Value(subResult);
  }

  method ProcessDiv(subtree: Tree) returns (result: Outcome)
    ensures result == Fold(Division, subtree.children)
    decreases subtree, 0
  {
    var cs := subtree.children;
    var divResult := 0;
    for i := 0 to |cs|
      invariant Fold(Division, cs[..i]) == Value(divResult)
    {
      assert cs[..i + 1][..i] == cs[..i];
      if cs[i].tag == "dividend" || cs[i].tag == "divisor" {
        var x := Number(cs[i].tree);
        if x.Undefined? || (cs[i].tag == "divisor" && x.n == 0) {
          FoldStaysUndefined(Division, cs, i + 1);
          return Undefined;
        }
        if cs[i].tag == "dividend" {
          divResult := divResult + x.n;
        } else {
          divResult := TruncDiv(divResult, x.n);
        }
      }
    }
    assert cs[..|cs|] == cs;
    result := Value(divResult);
  }
}
