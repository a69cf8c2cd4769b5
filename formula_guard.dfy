/**
 * The formula whitelist of the secure formula evaluator. A parsed formula is a
 * tree of syntax nodes, each with its kind and its child nodes in the order the
 * parser lists them: a binary operation has its left operand, its operator node
 * (such as `Add`) and its right operand; a unary operation its operator node
 * and its operand; a name its context node (`Load`); the tree of a formula
 * parsed in expression mode has an `Expression` node at the root.
 */
module FormulaGuard {
  import opened Wrappers

  datatype Kind =
    | Expression
    | Num
    | Name(id: string)
    | Load
    | Store
    | BinOp
    | UnaryOp
    | Operator(op: string)
    | Call
    | Attribute(attr: string)
    | OtherConstant
    | OtherKind(name: string)

  datatype Node = Node(kind: Kind, children: seq<Node>)

  /** The node kinds the whitelist admits. */
  predicate AllowedKind(k: Kind) {
    k.Num? || k.Name? || k.Load? || k.BinOp? || k.UnaryOp?
  }

  /** A node passes the name check unless it is a name other than `x`, `y` or `z`. */
  predicate AllowedName(k: Kind) {
    k.Name? ==> k.id in ["x", "y", "z"]
  }

  /** Every node of the tree has a kind satisfying `p`. */
  predicate Every(p: Kind -> bool, n: Node)
    decreases n, 1
  {
    p(n.kind) && EveryIn(p, n.children)
  }

  /** Every node of each of the trees has a kind satisfying `p`. */
  predicate EveryIn(p: Kind -> bool, ns: seq<Node>)
    decreases ns, 0
  {
    forall j | 0 <= j < |ns| :: Every(p, ns[j])
  }

  /** Each of the listed nodes, taken alone, has a kind satisfying `p`. */
  predicate EachSatisfies(p: Kind -> bool, nodes: seq<Node>) {
    forall i | 0 <= i < |nodes| :: p(nodes[i].kind)
  }

  /** The first loop of the validator: every node of the tree is of an admitted kind. */
  predicate AllNodesAllowed(n: Node) {
    Every(AllowedKind, n)
  }

  /** The second loop: every name in the tree is one of the three variables. */
  predicate AllNamesAllowed(n: Node) {
    Every(AllowedName, n)
  }

  /** `is_valid_formula`: both loops run to completion without returning False. */
  predicate IsValidFormula(tree: Node): (valid: bool)
    ensures valid ==>
      || tree.kind.Num? || tree.kind.Load? || tree.kind.BinOp? || tree.kind.UnaryOp?
      || (tree.kind.Name? && tree.kind.id in ["x", "y", "z"])
    ensures valid <==>
      && AllowedKind(tree.kind) && AllowedName(tree.kind)
      && forall j | 0 <= j < |tree.children| :: IsValidFormula(tree.children[j])
  {
    assert AllNodesAllowed(tree) <==> AllowedKind(tree.kind) && EveryIn(AllowedKind, tree.children);
    assert AllNamesAllowed(tree) <==> AllowedName(tree.kind) && EveryIn(AllowedName, tree.children);
    AllNodesAllowed(tree) && AllNamesAllowed(tree)
  }

  /** The nodes `ast.walk` visits: the root and every descendant (here in pre-order). */
  function Walk(n: Node): (nodes: seq<Node>)
    ensures |nodes| >= 1 && nodes[0] == n
    decreases n, 1
  {
    [n] + WalkAll(n.children)
  }

  function WalkAll(ns: seq<Node>): seq<Node>
    decreases ns, 0
  {
    if ns == [] then [] else Walk(ns[0]) + WalkAll(ns[1..])
  }

  /**
   * The recursive check is the loop over the walk: a tree satisfies `Every(p)`
   * exactly when every node `ast.walk` visits satisfies `p`.
   */
  lemma {:induction false} EveryIsWalkCheck(p: Kind -> bool, n: Node)
    ensures Every(p, n) <==> EachSatisfies(p, Walk(n))
    decreases n, 1
  {
    EveryInIsWalkCheck(p, n.children);
    var ws := WalkAll(n.children);
    EachSatisfiesAppend(p, [n], ws);
  }

  lemma {:induction false} EveryInIsWalkCheck(p: Kind -> bool, ns: seq<Node>)
    ensures EveryIn(p, ns) <==> EachSatisfies(p, WalkAll(ns))
    decreases ns, 0
  {
    if ns != [] {
      EveryIsWalkCheck(p, ns[0]);
      EveryInIsWalkCheck(p, ns[1..]);
      EachSatisfiesAppend(p, Walk(ns[0]), WalkAll(ns[1..]));
      assert EveryIn(p, ns) <==> Every(p, ns[0]) && EveryIn(p, ns[1..]) by {
        assert forall j :: 0 < j < |ns| ==> ns[j] == ns[1..][j - 1];
      }
    }
  }

  lemma EachSatisfiesAppend(p: Kind -> bool, a: seq<Node>, b: seq<Node>)
    ensures EachSatisfies(p, a + b) <==> EachSatisfies(p, a) && EachSatisfies(p, b)
  {
    if EachSatisfies(p, a) && EachSatisfies(p, b) {
      forall i | 0 <= i < |a + b| ensures p((a + b)[i].kind) {
        if i >= |a| {
          assert (a + b)[i] == b[i - |a|];
        }
      }
    }
    if EachSatisfies(p, a + b) {
      forall i | 0 <= i < |a| ensures p(a[i].kind) {
        assert (a + b)[i] == a[i];
      }
      forall i | 0 <= i < |b| ensures p(b[i].kind) {
        assert (a + b)[|a| + i] == b[i];
      }
    }
  }

  /** `is_valid_formula` is the two loops over the walk, each returning False at the first offending node. */
  lemma IsValidFormulaIsWalkCheck(tree: Node)
    ensures IsValidFormula(tree) <==> EachSatisfies(AllowedKind, Walk(tree)) && EachSatisfies(AllowedName, Walk(tree))
  {
    EveryIsWalkCheck(AllowedKind, tree);
    EveryIsWalkCheck(AllowedName, tree);
  }

  /**
   * `is_valid_formula` as written: a loop over the walked nodes that returns
   * False at the first node of a kind outside the whitelist, then a second loop
   * that returns False at the first name other than `x`, `y` or `z`.
   */
  method CheckFormula(tree: Node) returns (valid: bool)
    ensures valid == IsValidFormula(tree)
  {
    var nodes := Walk(tree);
    IsValidFormulaIsWalkCheck(tree);
    for i := 0 to |nodes|
      invariant forall k :: 0 <= k < i ==> AllowedKind(nodes[k].kind)
    {
      if !AllowedKind(nodes[i].kind) {
        return false;
      }
    }
    for i := 0 to |nodes|
      invariant forall k :: 0 <= k < i ==> AllowedName(nodes[k].kind)
    {
      if nodes[i].kind.Name? && nodes[i].kind.id !in ["x", "y", "z"] {
        return false;
      }
    }
    return true;
  }

  /** Any operator node below a binary or unary operation is outside the whitelist, so the whole tree is rejected. */
  lemma OperatorNodeRejected(n: Node)
    requires n.kind.Operator?
    ensures !IsValidFormula(Node(BinOp, [Node(Name("x"), [Node(Load, [])]), n, Node(Num, [])]))
    ensures !IsValidFormula(Node(UnaryOp, [n, Node(Num, [])]))
  {
    var b := Node(BinOp, [Node(Name("x"), [Node(Load, [])]), n, Node(Num, [])]);
    assert !AllowedKind(b.children[1].kind);
    assert !Every(AllowedKind, b.children[1]);
    assert !EveryIn(AllowedKind, b.children);
    assert !AllNodesAllowed(b);
    var u := Node(UnaryOp, [n, Node(Num, [])]);
    assert !AllowedKind(u.children[0].kind);
    assert !Every(AllowedKind, u.children[0]);
    assert !EveryIn(AllowedKind, u.children);
    assert !AllNodesAllowed(u);
  }

  /** An `Expression` root is outside the whitelist: no tree parsed in expression mode is accepted. */
  lemma ExpressionRootRejected(body: Node)
    ensures !IsValidFormula(Node(Expression, [body]))
  {
  }

  /**
   * `execute_formula_secure`, with the parser and the evaluator as parameters:
   * `parse` gives the body of the expression, or `None` on a syntax error;
   * `evaluate` gives the value, or `None` when evaluation raises. Evaluation is
   * reached only after the tree passes the whitelist; every failure gives `None`.
   */
  function ExecuteFormulaSecure<V>(formula: string, parse: string -> Option<Node>, evaluate: string -> Option<V>): (r: Option<V>)
    ensures r.Some? ==> parse(formula).Some? && IsValidFormula(Node(Expression, [parse(formula).value]))
    ensures r.Some? ==> r == evaluate(formula)
  {
    match parse(formula)
    case None => None
    case Some(body) =>
      var tree := Node(Expression, [body]);
      if !IsValidFormula(tree) then None else evaluate(formula)
  }

  /** Since the root is always rejected, the secure evaluator never returns a value. */
  lemma NeverEvaluates<V>(formula: string, parse: string -> Option<Node>, evaluate: string -> Option<V>)
    ensures ExecuteFormulaSecure(formula, parse, evaluate) == None
  {
    if parse(formula).Some? {
      ExpressionRootRejected(parse(formula).value);
    }
  }
}
