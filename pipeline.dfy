/** The whole compiler as the two scripts chain it: Main.py:90-100 builds
    the expression tree from the text, mycode_netlist.py:141-142 orders its
    lists innermost first and lowers them to NAND lines. The hand-off
    through the global `expression` is a plain function composition here. */
module Pipeline {
  import opened Nested
  import Tokenizer
  import Brackets
  import Precedence
  import Traversal
  import opened Netlist
  import Corrected

  /** `account_OR(account_AND(account_NOT(account_brackets(concat_expression(text)))))`. */
  function Parse(text: string): Result<seq<Elem>> {
    match Brackets.Group(Tokenizer.ConcatExpression(text))
    case Err(e) => Err(e)
    case Ok(grouped) =>
      match Precedence.NotPass(grouped)
      case Err(e) => Err(e)
      case Ok(negated) =>
        match Precedence.BinaryPass("AND", negated)
        case Err(e) => Err(e)
        case Ok(conjoined) => Precedence.BinaryPass("OR", conjoined)
  }

  /** The lines printed as the circuit for `text`. */
  function CompileSpec(text: string): Result<seq<Gate>> {
    match Parse(text)
    case Err(e) => Err(e)
    case Ok(ast) => Process(Traversal.Traversal(Grp(ast)))
  }

  /** The two scripts run one after the other on `text`. */
  method Compile(text: string) returns (r: Result<seq<Gate>>)
    ensures r == CompileSpec(text)
  {
    var input := Tokenizer.ConcatExpression(text);
    var expression := Brackets.AccountBrackets(input);
    if expression.Err? {
      return Err(expression.error);
    }
    var negated, _ := Precedence.AccountNot(expression.value);
    if negated.Err? {
      return Err(negated.error);
    }
    var conjoined, _ := Precedence.AccountAnd(negated.value);
    if conjoined.Err? {
      return Err(conjoined.error);
    }
    var ast, _ := Precedence.AccountOr(conjoined.value);
    if ast.Err? {
      return Err(ast.error);
    }
    var traversed := Traversal.TraverseNestedLists(Grp(ast.value));
    r := ProcessExpression(traversed);
  }

  /** Whatever the text, a circuit that comes out numbers its lines
      `temp_1`, `temp_2`, ... and reads only earlier lines. */
  lemma CompileNumbered(text: string)
    requires CompileSpec(text).Ok?
    ensures Numbered(CompileSpec(text).value)
  {
    var ast := Parse(text).value;
    ProcessNumbered(Traversal.Traversal(Grp(ast)));
  }

  /** The circuit the corrected lowering builds for `text`. */
  function CompileCorrected(text: string): Result<State> {
    match Parse(text)
    case Err(e) => Err(e)
    case Ok(ast) => Corrected.Run(Traversal.Traversal(Grp(ast)), Init)
  }

  /** With the lowering corrected, the circuit for any text that parses
      computes the parsed expression for every choice of variable values. */
  lemma CompiledComputes(text: string, env: string -> bool)
    requires CompileCorrected(text).Ok?
    ensures var ast := Parse(text).value; var s := CompileCorrected(text).value;
      Grp(ast) in s.temps && Corrected.WireVal(s.temps[Grp(ast)], Corrected.Vals(s.lines, env), env) == Corrected.Value(Grp(ast), env)
  {
    Corrected.CircuitComputes(Parse(text).value, env);
  }

  // ----- Two expressions on which the lowering as written goes wrong -----

  function AndAB(): seq<Elem> { [Tok("AND"), Tok("A"), Tok("B")] }
  function OrOfAndNode(): seq<Elem> { [Tok("OR"), Grp(AndAB()), Tok("C")] }

  /** The tree of `A & B | C`: `[["OR", ["AND", "A", "B"], "C"]]`. */
  function OrOfAnd(): seq<Elem> { [Grp(OrOfAndNode())] }

  function Wrapped(): seq<Elem> { [Grp(AndAB())] }
  function NotOfGroupNode(): seq<Elem> { [Tok("not"), Grp(Wrapped())] }

  /** The tree of `~(A & B)`: `[["not", [["AND", "A", "B"]]]]`; the
      parenthesised group stays a list of one element. */
  function NotOfGroup(): seq<Elem> { [Grp(NotOfGroupNode())] }

  function G1(): Gate { Gate(1, Raw(Tok("A")), Raw(Tok("B"))) }
  function G2(): Gate { Gate(2, Temp(1), Temp(1)) }

  /** The state after the `AND` node of either tree. */
  function AfterAnd(): State { State([G1(), G2()], map[Grp(AndAB()) := Temp(2)], map[]) }

  lemma AndFirst()
    ensures Step(Init, AndAB()) == Ok(AfterAnd())
    ensures Corrected.Step(Init, AndAB()) == Ok(AfterAnd())
  {
    AndBranch(Init, AndAB());
    assert [] + [G1()] + [G2()] == [G1(), G2()];
  }

  lemma OrOfAndOrder()
    ensures Traversal.Traversal(Grp(OrOfAnd())) == [AndAB(), OrOfAndNode(), OrOfAnd()]
  {
    Traversal.NoNestedWalk(AndAB(), 3);
    assert Traversal.WalkIn([Tok("OR")], 2) == [];
    assert Traversal.WalkIn([Tok("OR"), Grp(AndAB())], 2) == [Traversal.Entry(2, AndAB())];
    assert Traversal.WalkIn(OrOfAndNode(), 2) == [Traversal.Entry(2, AndAB())];
    var walk := [Traversal.Entry(2, AndAB()), Traversal.Entry(1, OrOfAndNode()), Traversal.Entry(0, OrOfAnd())];
    assert Traversal.Walk(Grp(OrOfAnd()), 0) == walk;
    assert Traversal.SortDesc(walk) == walk;
  }

  lemma OrOfAndInverters()
    ensures var s1 := AfterAnd();
      OrInvert(s1, OrOfAndNode()[1..], []) ==
        (s1.(lines := [G1(), G2(), Gate(3, Raw(Grp(AndAB())), Raw(Grp(AndAB()))), Gate(4, Raw(Tok("C")), Raw(Tok("C")))]),
         [Temp(3), Temp(4)])
  {
    var s1 := AfterAnd();
    var t1 := s1.(lines := [G1(), G2(), Gate(3, Raw(Grp(AndAB())), Raw(Grp(AndAB())))]);
    assert OrOfAndNode()[1..] == [Grp(AndAB()), Tok("C")];
    assert [Grp(AndAB()), Tok("C")][1..] == [Tok("C")] && [Tok("C")][1..] == [];
    assert [] + [Temp(3)] == [Temp(3)] && [Temp(3)] + [Temp(4)] == [Temp(3), Temp(4)];
    var t2 := s1.(lines := [G1(), G2(), Gate(3, Raw(Grp(AndAB())), Raw(Grp(AndAB()))), Gate(4, Raw(Tok("C")), Raw(Tok("C")))]);
    assert Grp(AndAB()) !in s1.nots && Tok("C") !in s1.nots;
    assert Emit(s1, Raw(Grp(AndAB())), Raw(Grp(AndAB()))) == t1;
    assert Emit(t1, Raw(Tok("C")), Raw(Tok("C"))) == t2;
    assert OrInvert(s1, [Grp(AndAB()), Tok("C")], []) == OrInvert(t1, [Tok("C")], [Temp(3)]);
    assert OrInvert(t1, [Tok("C")], [Temp(3)]) == OrInvert(t2, [], [Temp(3), Temp(4)]);
  }

  lemma OrOfAndInvertersCorrected()
    ensures var s1 := AfterAnd();
      Corrected.OrInvert(s1, OrOfAndNode()[1..], []) ==
        (s1.(lines := [G1(), G2(), Gate(3, Temp(2), Temp(2)), Gate(4, Raw(Tok("C")), Raw(Tok("C")))]),
         [Temp(3), Temp(4)])
  {
    var s1 := AfterAnd();
    var t1 := s1.(lines := [G1(), G2(), Gate(3, Temp(2), Temp(2))]);
    assert OrOfAndNode()[1..] == [Grp(AndAB()), Tok("C")];
    assert [Grp(AndAB()), Tok("C")][1..] == [Tok("C")] && [Tok("C")][1..] == [];
    assert [] + [Temp(3)] == [Temp(3)] && [Temp(3)] + [Temp(4)] == [Temp(3), Temp(4)];
    var t2 := s1.(lines := [G1(), G2(), Gate(3, Temp(2), Temp(2)), Gate(4, Raw(Tok("C")), Raw(Tok("C")))]);
    assert Grp(AndAB()) !in s1.nots && Tok("C") !in s1.nots;
    assert Lookup(s1.temps, Grp(AndAB())) == Temp(2);
    assert Tok("C") != Grp(AndAB()) && Lookup(t1.temps, Tok("C")) == Raw(Tok("C"));
    assert Emit(s1, Temp(2), Temp(2)) == t1;
    assert Emit(t1, Raw(Tok("C")), Raw(Tok("C"))) == t2;
    assert Corrected.OrInvert(s1, [Grp(AndAB()), Tok("C")], []) == Corrected.OrInvert(t1, [Tok("C")], [Temp(3)]);
    assert Corrected.OrInvert(t1, [Tok("C")], [Temp(3)]) == Corrected.OrInvert(t2, [], [Temp(3), Temp(4)]);
  }

  /** As written, the `OR` of `A & B | C` inverts the printed text of the
      `AND` list (line 3) instead of its result `temp_2`, which no line
      reads. */
  lemma OrOperandAsWritten()
    ensures Process(Traversal.Traversal(Grp(OrOfAnd()))) == Ok([
      G1(), G2(),
      Gate(3, Raw(Grp(AndAB())), Raw(Grp(AndAB()))), Gate(4, Raw(Tok("C")), Raw(Tok("C"))),
      Gate(5, Temp(3), Temp(4))])
  {
    OrOfAndOrder();
    AndFirst();
    var s1 := AfterAnd();
    var g3 := Gate(3, Raw(Grp(AndAB())), Raw(Grp(AndAB())));
    var g4 := Gate(4, Raw(Tok("C")), Raw(Tok("C")));
    var t2 := s1.(lines := [G1(), G2(), g3, g4]);
    OrOfAndInverters();
    OrBranch(s1, OrOfAndNode());
    var inverted := OrInvert(s1, OrOfAndNode()[1..], []);
    assert inverted.0 == t2 && inverted.1 == [Temp(3), Temp(4)];
    var g5 := Gate(5, Temp(3), Temp(4));
    assert t2.lines + [g5] == [G1(), G2(), g3, g4, g5];
    var s2 := State([G1(), G2(), g3, g4, g5], s1.temps[Grp(OrOfAndNode()) := Temp(5)], map[]);
    assert Step(s1, OrOfAndNode()) == Ok(s2);
    assert Step(s2, OrOfAnd()) == Ok(s2);
    assert Run([OrOfAnd()], s2) == Ok(s2);
    assert Run([OrOfAndNode(), OrOfAnd()], s1) == Ok(s2);
  }

  /** Corrected, the `OR` inverts `temp_2`, and the whole expression is
      `temp_5`. */
  lemma OrOperandCorrected()
    ensures var r := Corrected.Run(Traversal.Traversal(Grp(OrOfAnd())), Init);
      && r.Ok?
      && r.value.lines == [G1(), G2(), Gate(3, Temp(2), Temp(2)), Gate(4, Raw(Tok("C")), Raw(Tok("C"))), Gate(5, Temp(3), Temp(4))]
      && Grp(OrOfAnd()) in r.value.temps && r.value.temps[Grp(OrOfAnd())] == Temp(5)
  {
    OrOfAndOrder();
    AndFirst();
    var s1 := AfterAnd();
    var g3 := Gate(3, Temp(2), Temp(2));
    var g4 := Gate(4, Raw(Tok("C")), Raw(Tok("C")));
    var t2 := s1.(lines := [G1(), G2(), g3, g4]);
    OrOfAndInvertersCorrected();
    var g5 := Gate(5, Temp(3), Temp(4));
    assert t2.lines + [g5] == [G1(), G2(), g3, g4, g5];
    var s2 := State([G1(), G2(), g3, g4, g5], s1.temps[Grp(OrOfAndNode()) := Temp(5)], map[]);
    assert Corrected.Step(s1, OrOfAndNode()) == Ok(s2);
    var s3 := s2.(temps := s2.temps[Grp(OrOfAnd()) := Temp(5)]);
    assert Corrected.Step(s2, OrOfAnd()) == Ok(s3);
    assert Corrected.Run([OrOfAnd()], s2) == Ok(s3);
    assert Corrected.Run([OrOfAndNode(), OrOfAnd()], s1) == Ok(s3);
  }

  lemma NotOfGroupOrder()
    ensures Traversal.Traversal(Grp(NotOfGroup())) == [AndAB(), Wrapped(), NotOfGroupNode(), NotOfGroup()]
  {
    Traversal.NoNestedWalk(AndAB(), 4);
    assert Traversal.WalkIn(Wrapped(), 3) == [Traversal.Entry(3, AndAB())];
    assert Traversal.WalkIn([Tok("not")], 2) == [];
    assert Traversal.WalkIn(NotOfGroupNode(), 2) == [Traversal.Entry(3, AndAB()), Traversal.Entry(2, Wrapped())];
    var walk := [Traversal.Entry(3, AndAB()), Traversal.Entry(2, Wrapped()),
                 Traversal.Entry(1, NotOfGroupNode()), Traversal.Entry(0, NotOfGroup())];
    assert Traversal.Walk(Grp(NotOfGroup()), 0) == walk;
    assert Traversal.SortDesc(walk) == walk;
  }

  /** As written, the `not` of `~(A & B)` inverts the printed text of the
      one-element group (line 3), because the group itself was skipped. */
  lemma GroupOperandAsWritten()
    ensures Process(Traversal.Traversal(Grp(NotOfGroup()))) == Ok([
      G1(), G2(), Gate(3, Raw(Grp(Wrapped())), Raw(Grp(Wrapped())))])
  {
    NotOfGroupOrder();
    AndFirst();
    var s1 := AfterAnd();
    assert Step(s1, Wrapped()) == Ok(s1);
    NotBranch(s1, NotOfGroupNode());
    var g3 := Gate(3, Raw(Grp(Wrapped())), Raw(Grp(Wrapped())));
    assert Lookup(s1.temps, Grp(Wrapped())) == Raw(Grp(Wrapped()));
    assert s1.lines + [g3] == [G1(), G2(), g3];
    var s2 := State([G1(), G2(), g3], s1.temps[Grp(NotOfGroupNode()) := Temp(3)], map[Grp(Wrapped()) := Temp(3)]);
    assert Step(s1, NotOfGroupNode()) == Ok(s2);
    assert Step(s2, NotOfGroup()) == Ok(s2);
    assert Run([NotOfGroup()], s2) == Ok(s2);
    assert Run([NotOfGroupNode(), NotOfGroup()], s1) == Ok(s2);
    assert Run([Wrapped(), NotOfGroupNode(), NotOfGroup()], s1) == Ok(s2);
  }

  /** Corrected, the group passes on `temp_2` and the `not` inverts it;
      the whole expression is `temp_3`. */
  lemma GroupOperandCorrected()
    ensures var r := Corrected.Run(Traversal.Traversal(Grp(NotOfGroup())), Init);
      && r.Ok?
      && r.value.lines == [G1(), G2(), Gate(3, Temp(2), Temp(2))]
      && Grp(NotOfGroup()) in r.value.temps && r.value.temps[Grp(NotOfGroup())] == Temp(3)
  {
    NotOfGroupOrder();
    AndFirst();
    var s1 := AfterAnd();
    var w1 := s1.(temps := s1.temps[Grp(Wrapped()) := Temp(2)]);
    assert Corrected.Step(s1, Wrapped()) == Ok(w1);
    NotBranch(w1, NotOfGroupNode());
    var g3 := Gate(3, Temp(2), Temp(2));
    assert s1.lines + [g3] == [G1(), G2(), g3];
    var s2 := State([G1(), G2(), g3], w1.temps[Grp(NotOfGroupNode()) := Temp(3)], map[Grp(Wrapped()) := Temp(3)]);
    assert Corrected.Step(w1, NotOfGroupNode()) == Ok(s2);
    var s3 := s2.(temps := s2.temps[Grp(NotOfGroup()) := Temp(3)]);
    assert Corrected.Step(s2, NotOfGroup()) == Ok(s3);
    assert Corrected.Run([NotOfGroup()], s2) == Ok(s3);
    assert Corrected.Run([NotOfGroupNode(), NotOfGroup()], w1) == Ok(s3);
    assert Corrected.Run([Wrapped(), NotOfGroupNode(), NotOfGroup()], s1) == Ok(s3);
  }
}
