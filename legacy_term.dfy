/** The earlier term representation: a variable, or an operator applied to argument terms;
    with its serialisation and the collection of its variables and operators. Variables and
    operators are represented by how they display. */
module LegacyTerm {
  datatype Variable = Variable(shown: string)
  datatype Operator = Operator(shown: string)

  datatype Term = Var(v: Variable) | Application(op: Operator, args: seq<Term>)

  /** `display`: a variable or an argumentless application shows as its atom; otherwise the
      operator, then the argument displays separated by single spaces, in parentheses. */
  function Display(t: Term): string
    decreases t
  {
    match t
    case Var(v) => v.shown
    case Application(op, args) =>
      if args == [] then op.shown else op.shown + "(" + JoinDisplays(args) + ")"
  }

  /** `args.iter().map(Term::display).join(" ")` */
  function JoinDisplays(ts: seq<Term>): string
    decreases ts
  {
    if ts == [] then ""
    else if |ts| == 1 then Display(ts[0])
    else JoinDisplays(ts[..|ts| - 1]) + " " + Display(ts[|ts| - 1])
  }

  /** `variables`: the variable leaves from left to right. */
  function Variables(t: Term): seq<Variable>
    decreases t
  {
    match t
    case Var(v) => [v]
    case Application(_, args) => VariablesAll(args)
  }

  function VariablesAll(ts: seq<Term>): seq<Variable>
    decreases ts
  {
    if ts == [] then [] else VariablesAll(ts[..|ts| - 1]) + Variables(ts[|ts| - 1])
  }

  /** `operators`: the operators in post-order, each argument's before the node's own. */
  function Operators(t: Term): seq<Operator>
    decreases t
  {
    match t
    case Var(_) => []
    case Application(op, args) => OperatorsAll(args) + [op]
  }

  function OperatorsAll(ts: seq<Term>): seq<Operator>
    decreases ts
  {
    if ts == [] then [] else OperatorsAll(ts[..|ts| - 1]) + Operators(ts[|ts| - 1])
  }

  /** `args`: none for a variable, the argument list for an application. */
  function Args(t: Term): (r: seq<Term>)
    ensures t.Var? ==> r == []
    ensures t.Application? ==> r == t.args
  {
    match t
    case Var(_) => []
    case Application(_, args) => args
  }

  /** The number of nodes, counted independently of the collections. */
  function NodeCount(t: Term): nat
    decreases t
  {
    match t
    case Var(_) => 1
    case Application(_, args) => 1 + NodeCountAll(args)
  }

  function NodeCountAll(ts: seq<Term>): nat
    decreases ts
  {
    if ts == [] then 0 else NodeCountAll(ts[..|ts| - 1]) + NodeCount(ts[|ts| - 1])
  }

  /** Every node is either a variable or an operator: the two collections together have one
      entry per node. */
  lemma {:induction false} CollectionsCountNodes(t: Term)
    ensures |Variables(t)| + |Operators(t)| == NodeCount(t)
    decreases t
  {
    match t
    case Var(_) =>
    case Application(_, args) => CollectionsCountNodesAll(args);
  }

  lemma {:induction false} CollectionsCountNodesAll(ts: seq<Term>)
    ensures |VariablesAll(ts)| + |OperatorsAll(ts)| == NodeCountAll(ts)
    decreases ts
  {
    if ts != [] {
      CollectionsCountNodesAll(ts[..|ts| - 1]);
      CollectionsCountNodes(ts[|ts| - 1]);
    }
  }

  /** An application's own operator comes last among its operators. */
  lemma RootOperatorLast(t: Term)
    requires t.Application?
    ensures Operators(t) != [] && Operators(t)[|Operators(t)| - 1] == t.op
  {
  }

  /** How many times `c` occurs in `s`. */
  function Count(s: string, c: char): nat
  {
    if s == [] then 0 else Count(s[..|s| - 1], c) + (if s[|s| - 1] == c then 1 else 0)
  }

  lemma {:induction false} CountAppend(a: string, b: string, c: char)
    ensures Count(a + b, c) == Count(a, c) + Count(b, c)
    decreases |b|
  {
    if b == [] {
      assert a + b == a;
    } else {
      assert (a + b)[..|a + b| - 1] == a + b[..|b| - 1];
      assert (a + b)[|a + b| - 1] == b[|b| - 1];
      CountAppend(a, b[..|b| - 1], c);
    }
  }

  /** The applications that have arguments, which are the ones displayed with parentheses. */
  function Compounds(t: Term): nat
    decreases t
  {
    match t
    case Var(_) => 0
    case Application(_, args) => (if args == [] then 0 else 1) + CompoundsAll(args)
  }

  function CompoundsAll(ts: seq<Term>): nat
    decreases ts
  {
    if ts == [] then 0 else CompoundsAll(ts[..|ts| - 1]) + Compounds(ts[|ts| - 1])
  }

  /** No variable or operator displays with a parenthesis. */
  predicate ParenFreeAtoms(vs: seq<Variable>, ops: seq<Operator>)
  {
    (forall v :: v in vs ==> Count(v.shown, '(') == 0 && Count(v.shown, ')') == 0) &&
    (forall op :: op in ops ==> Count(op.shown, '(') == 0 && Count(op.shown, ')') == 0)
  }

  /** When no atom displays with a parenthesis, the display has one opening and one closing
      parenthesis per application with arguments, so its parentheses balance. */
  lemma {:induction false} DisplayParentheses(t: Term)
    requires ParenFreeAtoms(Variables(t), Operators(t))
    ensures Count(Display(t), '(') == Compounds(t)
    ensures Count(Display(t), ')') == Compounds(t)
    decreases t
  {
    match t
    case Var(_) =>
    case Application(op, args) =>
      DisplayParenthesesAll(args);
      assert op in Operators(t);
      if args != [] {
        var inner := JoinDisplays(args);
        forall c | c == '(' || c == ')'
          ensures Count(Display(t), c) == Count(op.shown, c) + Count("(", c) + Count(inner, c) + Count(")", c)
        {
          CountAppend(op.shown, "(", c);
          CountAppend(op.shown + "(", inner, c);
          CountAppend(op.shown + "(" + inner, ")", c);
        }
        assert Count("(", '(') == 1 && Count("(", ')') == 0;
        assert Count(")", ')') == 1 && Count(")", '(') == 0;
      }
  }

  lemma {:induction false} DisplayParenthesesAll(ts: seq<Term>)
    requires ParenFreeAtoms(VariablesAll(ts), OperatorsAll(ts))
    ensures Count(JoinDisplays(ts), '(') == CompoundsAll(ts)
    ensures Count(JoinDisplays(ts), ')') == CompoundsAll(ts)
    decreases ts
  {
    if ts != [] {
      var init := ts[..|ts| - 1];
      var last := ts[|ts| - 1];
      DisplayParenthesesAll(init);
      DisplayParentheses(last);
      if |ts| == 1 {
        assert init == [];
      } else {
        forall c | c == '(' || c == ')'
          ensures Count(JoinDisplays(ts), c) == Count(JoinDisplays(init), c) + Count(" ", c) + Count(Display(last), c)
        {
          CountAppend(JoinDisplays(init), " ", c);
          CountAppend(JoinDisplays(init) + " ", Display(last), c);
        }
        assert Count(" ", '(') == 0 && Count(" ", ')') == 0;
      }
    }
  }
}
