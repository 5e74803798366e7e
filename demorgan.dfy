/** The De Morgan rewrite table and `convert_to_nand` of
    mycode_netlist.py:4-36: each supported operation written with NAND gates
    only, as text. */
module DeMorgan {
  import opened Nested

  /** The `gate_count` of each entry of `demorgan_rules`; the keys are the
      supported operations. */
  const Rules: map<string, nat> := map["AND" := 2, "OR" := 3, "not" := 1]

  /** A NAND-only circuit over named inputs. */
  datatype Circuit = Input(name: string) | Nand(a: Circuit, b: Circuit)

  /** The `NAND(x, y)` text of a circuit. */
  function Show(c: Circuit): string {
    match c
    case Input(n) => n
    case Nand(a, b) => "NAND(" + Show(a) + ", " + Show(b) + ")"
  }

  /** The value of a circuit for given input values. */
  function Eval(c: Circuit, env: string -> bool): bool {
    match c
    case Input(n) => env(n)
    case Nand(a, b) => !(Eval(a, env) && Eval(b, env))
  }

  /** The distinct gates of a circuit: a gate used twice is built once. */
  function Gates(c: Circuit): set<Circuit> {
    match c
    case Input(_) => {}
    case Nand(a, b) => {c} + Gates(a) + Gates(b)
  }

  /** The circuit each rule's description stands for. */
  function Rule(op: string, inputs: seq<string>): Result<Circuit> {
    if op !in Rules then Err(UnsupportedOperation(op))
    else if op == "not" then
      if |inputs| < 1 then Err(IndexError) else Ok(Nand(Input(inputs[0]), Input(inputs[0])))
    else if |inputs| < 2 then Err(IndexError)
    else if op == "AND" then
      var t := Nand(Input(inputs[0]), Input(inputs[1]));
      Ok(Nand(t, t))
    else
      Ok(Nand(Nand(Input(inputs[0]), Input(inputs[0])), Nand(Input(inputs[1]), Input(inputs[1]))))
  }

  /** The boolean operation a rule implements. */
  function Apply(op: string, a: bool, b: bool): bool {
    if op == "not" then !a else if op == "AND" then a && b else a || b
  }

  /** `convert_to_nand(operation, inputs)`: the text it builds is the rule's
      circuit written out; an operation outside the table is refused, and a
      missing input fails like `inputs[1]` on a short list. */
  function ConvertToNand(op: string, inputs: seq<string>): (r: Result<string>)
    ensures r == Err(UnsupportedOperation(op)) <==> op !in Rules
    ensures r == Err(IndexError) <==> op in Rules && |inputs| < (if op == "not" then 1 else 2)
    ensures r.Ok? <==> Rule(op, inputs).Ok?
    ensures r.Ok? ==> r.value == Show(Rule(op, inputs).value)
  {
    if op !in Rules then Err(UnsupportedOperation(op))
    else if op == "not" then
      if |inputs| < 1 then Err(IndexError)
      else
        var x := Input(inputs[0]);
        assert Show(Nand(x, x)) == "NAND(" + inputs[0] + ", " + inputs[0] + ")";
        Ok("NAND(" + inputs[0] + ", " + inputs[0] + ")")
    else if |inputs| < 2 then Err(IndexError)
    else if op == "AND" then
      var nandResult := "NAND(" + inputs[0] + ", " + inputs[1] + ")";
      var t := Nand(Input(inputs[0]), Input(inputs[1]));
      assert Show(t) == nandResult;
      assert Show(Nand(t, t)) == "NAND(" + Show(t) + ", " + Show(t) + ")";
      Ok("NAND(" + nandResult + ", " + nandResult + ")")
    else
      var notA := "NAND(" + inputs[0] + ", " + inputs[0] + ")";
      var notB := "NAND(" + inputs[1] + ", " + inputs[1] + ")";
      var na, nb := Nand(Input(inputs[0]), Input(inputs[0])), Nand(Input(inputs[1]), Input(inputs[1]));
      assert Show(na) == notA;
      assert Show(nb) == notB;
      assert Show(Nand(na, nb)) == "NAND(" + Show(na) + ", " + Show(nb) + ")";
      Ok("NAND(" + notA + ", " + notB + ")")
  }

  /** Inputs after the first two play no part. */
  lemma ConvertUsesTwo(op: string, inputs: seq<string>)
    requires |inputs| >= 2
    ensures ConvertToNand(op, inputs) == ConvertToNand(op, inputs[..2])
  {
    assert inputs[..2][0] == inputs[0] && inputs[..2][1] == inputs[1];
  }

  /** Each rule computes its operation on the values of its inputs. */
  lemma RuleSound(op: string, inputs: seq<string>, env: string -> bool)
    requires Rule(op, inputs).Ok?
    ensures Eval(Rule(op, inputs).value, env)
            == Apply(op, env(inputs[0]), if op == "not" then false else env(inputs[1]))
  {
    var x := Input(inputs[0]);
    if op == "not" {
      assert Eval(Nand(x, x), env) == !env(inputs[0]);
    } else {
      var y := Input(inputs[1]);
      if op == "AND" {
        var t := Nand(x, y);
        assert Eval(t, env) == !(env(inputs[0]) && env(inputs[1]));
        assert Eval(Nand(t, t), env) == !Eval(t, env);
      } else {
        assert Eval(Nand(x, x), env) == !env(inputs[0]);
        assert Eval(Nand(y, y), env) == !env(inputs[1]);
      }
    }
  }

  /** Each rule builds exactly its `gate_count` distinct gates (the two
      inverters of `OR` are distinct when its inputs are). */
  lemma RuleGateCount(op: string, inputs: seq<string>)
    requires Rule(op, inputs).Ok?
    requires op == "OR" ==> inputs[0] != inputs[1]
    ensures |Gates(Rule(op, inputs).value)| == Rules[op]
  {
    if op == "not" {
      InverterGates(inputs[0]);
    } else if op == "AND" {
      AndGates(inputs[0], inputs[1]);
    } else {
      OrGates(inputs[0], inputs[1]);
    }
  }

  lemma AndGates(a: string, b: string)
    ensures var t := Nand(Input(a), Input(b)); |Gates(Nand(t, t))| == 2
  {
    var t := Nand(Input(a), Input(b));
    assert Gates(t) == {t};
    assert Gates(Nand(t, t)) == {Nand(t, t), t};
    TwoGates(Nand(t, t), t);
  }

  lemma OrGates(a: string, b: string)
    requires a != b
    ensures |Gates(Nand(Nand(Input(a), Input(a)), Nand(Input(b), Input(b))))| == 3
  {
    var na, nb := Nand(Input(a), Input(a)), Nand(Input(b), Input(b));
    InverterGates(a);
    InverterGates(b);
    var c := Nand(na, nb);
    assert Gates(c) == {c} + {na} + {nb};
    ThreeGates(c, na, nb);
  }

  lemma InverterGates(n: string)
    ensures Gates(Nand(Input(n), Input(n))) == {Nand(Input(n), Input(n))}
  {
  }

  lemma TwoGates(c: Circuit, t: Circuit)
    requires c != t
    ensures |{c, t}| == 2
  {
  }

  lemma ThreeGates(c: Circuit, p: Circuit, q: Circuit)
    requires c != p && c != q && p != q
    ensures |{c} + {p} + {q}| == 3
  {
    assert {c} + {p} + {q} == {c, p} + {q};
    assert |{c, p}| == 2;
  }
}
