/** `process_expression` (mycode_netlist.py:77-138): the lists of the
    innermost-first order, lowered one by one to `temp_k = NAND(x, y)`
    lines, with the result wire of each sub-expression kept in `temp_vars`
    and the inverter built for an operand kept in `not_vars`. */
module Netlist {
  import opened Nested
  import DeMorgan

  /** A NAND input: the output `temp_k` of line k, or the text of an
      element as written (a variable name, or a list's printed form). */
  datatype Wire = Temp(k: nat) | Raw(e: Elem)

  /** The line `temp_out = NAND(a, b)`. */
  datatype Gate = Gate(out: nat, a: Wire, b: Wire)

  /** The lines emitted so far and the two dictionaries. The source keys
      both dictionaries by `str(...)` of the element; they are keyed here
      by the element itself. */
  datatype State = State(lines: seq<Gate>, temps: map<Elem, Wire>, nots: map<Elem, Wire>)

  const Init := State([], map[], map[])

  /** `temp_vars.get(str(e), str(e))`. */
  function Lookup(m: map<Elem, Wire>, e: Elem): (w: Wire)
    ensures e in m ==> w == m[e]
    ensures e !in m ==> w == Raw(e)
  {
    if e in m then m[e] else Raw(e)
  }

  /** One more line, defining the next temp name. */
  function Emit(s: State, a: Wire, b: Wire): State {
    s.(lines := s.lines + [Gate(|s.lines| + 1, a, b)])
  }

  /** The operand loop of an `OR` node: an operand already inverted by a
      `not` node reuses that inverter, any other is inverted by its raw
      text. `acc` holds the wires chosen for the operands before `ops`. */
  function OrInvert(s: State, ops: seq<Elem>, acc: seq<Wire>): (r: (State, seq<Wire>))
    ensures |r.1| == |acc| + |ops|
    ensures r.0.temps == s.temps && r.0.nots == s.nots
    decreases ops
  {
    if ops == [] then (s, acc)
    else if ops[0] in s.nots then OrInvert(s, ops[1..], acc + [s.nots[ops[0]]])
    else
      var s1 := Emit(s, Raw(ops[0]), Raw(ops[0]));
      OrInvert(s1, ops[1..], acc + [Temp(|s1.lines|)])
  }

  /** The operands of `ops` that no `not` node has inverted. */
  function Fresh(nots: map<Elem, Wire>, ops: seq<Elem>): nat {
    if ops == [] then 0 else (if ops[0] in nots then 0 else 1) + Fresh(nots, ops[1..])
  }

  /** The work done for one list of the order. */
  function Step(s: State, lst: seq<Elem>): Result<State> {
    if |lst| == 1 then Ok(s)
    else if lst == [] then Err(IndexError)
    else if lst[0] == Tok("not") then
      if |lst| != 2 then Err(NotArity)
      else
        var input := Lookup(s.temps, lst[1]);
        var s1 := Emit(s, input, input);
        var t := Temp(|s1.lines|);
        Ok(State(s1.lines, s1.temps[Grp(lst) := t], s1.nots[lst[1] := t]))
    else if lst[0] == Tok("AND") || lst[0] == Tok("OR") then
      var op := lst[0].text;
      if |lst[1..]| < 2 then Err(TooFewOperands(op))
      else if op == "AND" then
        var s1 := Emit(s, Lookup(s.temps, lst[1]), Lookup(s.temps, lst[2]));
        var t := Temp(|s1.lines|);
        var s2 := Emit(s1, t, t);
        Ok(s2.(temps := s2.temps[Grp(lst) := Temp(|s2.lines|)]))
      else
        var inverted := OrInvert(s, lst[1..], []);
        var s2 := Emit(inverted.0, inverted.1[0], inverted.1[1]);
        Ok(s2.(temps := s2.temps[Grp(lst) := Temp(|s2.lines|)]))
    else Err(UnknownOperator(lst[0]))
  }

  /** The lists of `order`, processed from `s` on. */
  function Run(order: seq<seq<Elem>>, s: State): Result<State> {
    if order == [] then Ok(s)
    else
      match Step(s, order[0])
      case Err(e) => Err(e)
      case Ok(next) => Run(order[1..], next)
  }

  /** The lines `process_expression(traversed)` returns. */
  function Process(traversed: seq<seq<Elem>>): Result<seq<Gate>> {
    match Run(traversed, Init)
    case Err(e) => Err(e)
    case Ok(s) => Ok(s.lines)
  }

  /** `process_expression(traversed)`. */
  method ProcessExpression(traversed: seq<seq<Elem>>) returns (r: Result<seq<Gate>>)
    ensures r == Process(traversed)
  {
    var result: seq<Gate> := [];
    var tempVars: map<Elem, Wire> := map[];
    var notVars: map<Elem, Wire> := map[];
    var varCounter := 0;
    for i := 0 to |traversed|
      invariant varCounter == |result|
      invariant Run(traversed, Init) == Run(traversed[i..], State(result, tempVars, notVars))
    {
      var lst := traversed[i];
      var before := State(result, tempVars, notVars);
      RunFirst(traversed, i, before);
      if |lst| == 1 {
        continue;
      }
      if lst == [] {
        return Err(IndexError);
      }
      if lst[0] == Tok("not") {
        if |lst| != 2 {
          return Err(NotArity);
        }
        var operand := lst[1];
        var inputVal := Lookup(tempVars, operand);
        varCounter := varCounter + 1;
        var tempVar := Temp(varCounter);
        tempVars := tempVars[Grp(lst) := tempVar];
        notVars := notVars[operand := tempVar];
        result := result + [Gate(varCounter, inputVal, inputVal)];
        NotBranch(before, lst);
      } else if lst[0] == Tok("AND") || lst[0] == Tok("OR") {
        var operator := lst[0].text;
        var operands := lst[1..];
        if |operands| < 2 {
          return Err(TooFewOperands(operator));
        }
        if operator == "AND" {
          var processed := seq(|operands|, k requires 0 <= k < |operands| => Lookup(tempVars, operands[k]));
          varCounter := varCounter + 1;
          var tempVar := Temp(varCounter);
          result := result + [Gate(varCounter, processed[0], processed[1])];
          varCounter := varCounter + 1;
          var tempVar2 := Temp(varCounter);
          result := result + [Gate(varCounter, tempVar, tempVar)];
          tempVars := tempVars[Grp(lst) := tempVar2];
          AndBranch(before, lst);
        } else {
          var processed;
          result, processed := InvertOperands(before, operands);
          varCounter := |result|;
          OrBranch(before, lst);
          varCounter := varCounter + 1;
          var tempVar := Temp(varCounter);
          result := result + [Gate(varCounter, processed[0], processed[1])];
          tempVars := tempVars[Grp(lst) := tempVar];
        }
      } else {
        return Err(UnknownOperator(lst[0]));
      }
    }
    r := Ok(result);
  }

  /** The inverter loop of the `OR` branch: an operand inverted by a `not`
      node reuses that node's temp, any other gets an inverter of its own. */
  method InvertOperands(before: State, operands: seq<Elem>) returns (result: seq<Gate>, processed: seq<Wire>)
    ensures result == OrInvert(before, operands, []).0.lines
    ensures processed == OrInvert(before, operands, []).1
  {
    result := before.lines;
    var notVars := before.nots;
    var varCounter := |result|;
    processed := [];
    for j := 0 to |operands|
      invariant varCounter == |result| && notVars == before.nots
      invariant OrInvert(before, operands, []) == OrInvert(State(result, before.temps, notVars), operands[j..], processed)
    {
      var op := operands[j];
      assert operands[j..][1..] == operands[j + 1..];
      if op in notVars {
        processed := processed + [notVars[op]];
      } else {
        varCounter := varCounter + 1;
        result := result + [Gate(varCounter, Raw(op), Raw(op))];
        processed := processed + [Temp(varCounter)];
      }
    }
    assert operands[|operands|..] == [];
  }

  /** The run from the i-th list on: the step, then the rest. */
  lemma RunFirst(order: seq<seq<Elem>>, i: nat, s: State)
    requires i < |order|
    ensures Step(s, order[i]).Err? ==> Run(order[i..], s) == Err(Step(s, order[i]).error)
    ensures Step(s, order[i]).Ok? ==> Run(order[i..], s) == Run(order[i + 1..], Step(s, order[i]).value)
  {
    assert order[i..][0] == order[i] && order[i..][1..] == order[i + 1..];
  }

  lemma NotBranch(s: State, lst: seq<Elem>)
    requires |lst| == 2 && lst[0] == Tok("not")
    ensures var k := |s.lines| + 1; var input := Lookup(s.temps, lst[1]);
      Step(s, lst) == Ok(State(s.lines + [Gate(k, input, input)], s.temps[Grp(lst) := Temp(k)], s.nots[lst[1] := Temp(k)]))
  {
  }

  lemma AndBranch(s: State, lst: seq<Elem>)
    requires |lst| >= 3 && lst[0] == Tok("AND")
    ensures var k := |s.lines| + 1;
      Step(s, lst) == Ok(State(s.lines + [Gate(k, Lookup(s.temps, lst[1]), Lookup(s.temps, lst[2]))]
                                       + [Gate(k + 1, Temp(k), Temp(k))],
                               s.temps[Grp(lst) := Temp(k + 1)], s.nots))
  {
  }

  lemma OrBranch(s: State, lst: seq<Elem>)
    requires |lst| >= 3 && lst[0] == Tok("OR")
    ensures var inverted := OrInvert(s, lst[1..], []); var k := |inverted.0.lines| + 1;
      Step(s, lst) == Ok(State(inverted.0.lines + [Gate(k, inverted.1[0], inverted.1[1])], s.temps[Grp(lst) := Temp(k)], s.nots))
  {
  }

  // ----- Facts about the operand loop -----

  /** One wire per operand, the dictionaries untouched, and one new line
      per operand not yet inverted. */
  lemma {:induction false} OrWires(s: State, ops: seq<Elem>, acc: seq<Wire>)
    decreases ops
    ensures var (r, ws) := OrInvert(s, ops, acc);
      && ws[..|acc|] == acc
      && |r.lines| == |s.lines| + Fresh(s.nots, ops) && r.lines[..|s.lines|] == s.lines
  {
    if ops != [] {
      if ops[0] in s.nots {
        OrWires(s, ops[1..], acc + [s.nots[ops[0]]]);
        var ws := OrInvert(s, ops, acc).1;
        assert ws[..|acc| + 1][..|acc|] == ws[..|acc|];
      } else {
        var s1 := Emit(s, Raw(ops[0]), Raw(ops[0]));
        OrWires(s1, ops[1..], acc + [Temp(|s1.lines|)]);
        var (r, ws) := OrInvert(s, ops, acc);
        assert ws[..|acc| + 1][..|acc|] == ws[..|acc|];
        assert r.lines[..|s1.lines|][..|s.lines|] == r.lines[..|s.lines|];
      }
    }
  }

  // ----- Numbering: line k defines temp_k and reads only earlier lines -----

  /** A wire available before line j + 1: a raw text, or one of `temp_1`
      .. `temp_j`. */
  predicate Earlier(w: Wire, j: nat) {
    w.Temp? ==> 1 <= w.k <= j
  }

  predicate Numbered(lines: seq<Gate>) {
    forall j :: 0 <= j < |lines| ==>
      lines[j].out == j + 1 && Earlier(lines[j].a, j) && Earlier(lines[j].b, j)
  }

  /** The lines are numbered and every recorded wire names an existing line. */
  predicate Good(s: State) {
    && Numbered(s.lines)
    && (forall e :: e in s.temps ==> Earlier(s.temps[e], |s.lines|))
    && (forall e :: e in s.nots ==> Earlier(s.nots[e], |s.lines|))
  }

  lemma EmitGood(s: State, a: Wire, b: Wire)
    requires Good(s) && Earlier(a, |s.lines|) && Earlier(b, |s.lines|)
    ensures Good(Emit(s, a, b))
  {
    var r := Emit(s, a, b);
    forall j | 0 <= j < |r.lines|
      ensures r.lines[j].out == j + 1 && Earlier(r.lines[j].a, j) && Earlier(r.lines[j].b, j)
    {
      if j < |s.lines| {
        assert r.lines[j] == s.lines[j];
      }
    }
  }

  lemma {:induction false} OrInvertGood(s: State, ops: seq<Elem>, acc: seq<Wire>)
    requires Good(s) && forall w :: w in acc ==> Earlier(w, |s.lines|)
    ensures var r := OrInvert(s, ops, acc); Good(r.0) && forall w :: w in r.1 ==> Earlier(w, |r.0.lines|)
    decreases ops
  {
    if ops != [] {
      if ops[0] in s.nots {
        OrInvertGood(s, ops[1..], acc + [s.nots[ops[0]]]);
      } else {
        var s1 := Emit(s, Raw(ops[0]), Raw(ops[0]));
        EmitGood(s, Raw(ops[0]), Raw(ops[0]));
        OrInvertGood(s1, ops[1..], acc + [Temp(|s1.lines|)]);
      }
    }
  }

  /** Each step keeps the numbering and the dictionaries' wires valid. */
  lemma StepGood(s: State, lst: seq<Elem>)
    requires Good(s) && Step(s, lst).Ok?
    ensures Good(Step(s, lst).value)
  {
    if |lst| != 1 {
      var k := |s.lines| + 1;
      if lst[0] == Tok("not") {
        var input := Lookup(s.temps, lst[1]);
        EmitGood(s, input, input);
      } else if lst[0] == Tok("AND") {
        var s1 := Emit(s, Lookup(s.temps, lst[1]), Lookup(s.temps, lst[2]));
        EmitGood(s, Lookup(s.temps, lst[1]), Lookup(s.temps, lst[2]));
        EmitGood(s1, Temp(k), Temp(k));
      } else {
        OrInvertGood(s, lst[1..], []);
        var inverted := OrInvert(s, lst[1..], []);
        assert inverted.1[0] in inverted.1 && inverted.1[1] in inverted.1;
        EmitGood(inverted.0, inverted.1[0], inverted.1[1]);
      }
    }
  }

  lemma {:induction false} RunGood(order: seq<seq<Elem>>, s: State)
    requires Good(s) && Run(order, s).Ok?
    ensures Good(Run(order, s).value)
  {
    if order != [] {
      StepGood(s, order[0]);
      RunGood(order[1..], Step(s, order[0]).value);
    }
  }

  /** `var_counter` goes up once per line: line k (from 1) defines
      `temp_k`, so the names are distinct and consecutive, and every
      `temp` a line reads is defined by an earlier line. */
  lemma ProcessNumbered(traversed: seq<seq<Elem>>)
    requires Process(traversed).Ok?
    ensures Numbered(Process(traversed).value)
  {
    RunGood(traversed, Init);
  }

  // ----- Lines per node -----

  /** Each step only appends lines. */
  lemma {:induction false} StepAppends(s: State, lst: seq<Elem>)
    requires Step(s, lst).Ok?
    ensures |Step(s, lst).value.lines| >= |s.lines|
    ensures Step(s, lst).value.lines[..|s.lines|] == s.lines
  {
    if |lst| != 1 && lst[0] != Tok("not") && lst[0] != Tok("AND") {
      OrWires(s, lst[1..], []);
      var inverted := OrInvert(s, lst[1..], []);
      var r := Step(s, lst).value;
      assert r.lines[..|inverted.0.lines|] == inverted.0.lines;
      assert r.lines[..|inverted.0.lines|][..|s.lines|] == r.lines[..|s.lines|];
    }
  }

  /** A list of one element emits nothing; a `not` node emits its gate
      count of lines, one NAND of its input with itself; an `AND` node its
      gate count, the second line inverting the first. */
  lemma NodeLines(s: State, lst: seq<Elem>)
    requires Step(s, lst).Ok?
    ensures |lst| == 1 ==> Step(s, lst) == Ok(s)
    ensures |lst| == 2 && lst[0] == Tok("not") ==>
      var r := Step(s, lst).value; var input := Lookup(s.temps, lst[1]);
      |r.lines| == |s.lines| + DeMorgan.Rules["not"] && r.lines[|s.lines|] == Gate(|s.lines| + 1, input, input)
    ensures |lst| >= 3 && lst[0] == Tok("AND") ==>
      var r := Step(s, lst).value; var k := |s.lines| + 1;
      && |r.lines| == |s.lines| + DeMorgan.Rules["AND"]
      && r.lines[|s.lines|] == Gate(k, Lookup(s.temps, lst[1]), Lookup(s.temps, lst[2]))
      && r.lines[|s.lines| + 1] == Gate(k + 1, Temp(k), Temp(k))
  {
  }

  /** An `OR` node emits one line per operand that no `not` node has
      inverted, then the NAND of the two first operands' inverters; with
      two operands neither of which was inverted before, that is its gate
      count. */
  lemma OrLines(s: State, lst: seq<Elem>)
    requires |lst| >= 3 && lst[0] == Tok("OR")
    ensures Step(s, lst).Ok?
    ensures |Step(s, lst).value.lines| == |s.lines| + Fresh(s.nots, lst[1..]) + 1
    ensures |lst| == 3 && lst[1] !in s.nots && lst[2] !in s.nots ==>
      |Step(s, lst).value.lines| == |s.lines| + DeMorgan.Rules["OR"]
  {
    OrWires(s, lst[1..], []);
    if |lst| == 3 {
      var ops := lst[1..];
      assert ops[1..][0] == lst[2] && ops[1..][1..] == [];
      if lst[1] !in s.nots && lst[2] !in s.nots {
        assert Fresh(s.nots, ops[1..]) == 1 + Fresh(s.nots, []);
        assert DeMorgan.Rules["OR"] == 3;
      }
    }
  }

  /** With two operands, the `OR` lines: an operand a `not` node has
      inverted reuses that inverter; any other is inverted by a new line
      reading its raw text, never its `temp_vars` wire. */
  lemma OrTwo(s: State, lst: seq<Elem>)
    requires |lst| == 3 && lst[0] == Tok("OR")
    ensures var r := Step(s, lst).value; var n := |s.lines|;
      var a := if lst[1] in s.nots then s.nots[lst[1]] else Temp(n + 1);
      var m := if lst[1] in s.nots then n else n + 1;
      var b := if lst[2] in s.nots then s.nots[lst[2]] else Temp(m + 1);
      && |r.lines| > m
      && (lst[1] !in s.nots ==> r.lines[n] == Gate(n + 1, Raw(lst[1]), Raw(lst[1])))
      && (lst[2] !in s.nots ==> r.lines[m] == Gate(m + 1, Raw(lst[2]), Raw(lst[2])))
      && r.lines[|r.lines| - 1] == Gate(|r.lines|, a, b)
  {
    var ops := lst[1..];
    var n := |s.lines|;
    var a := if ops[0] in s.nots then s.nots[ops[0]] else Temp(n + 1);
    var s1 := if ops[0] in s.nots then s else Emit(s, Raw(ops[0]), Raw(ops[0]));
    assert [] + [a] == [a];
    assert OrInvert(s, ops, []) == OrInvert(s1, ops[1..], [a]);
    var m := |s1.lines|;
    var b := if ops[1] in s.nots then s.nots[ops[1]] else Temp(m + 1);
    var s2 := if ops[1] in s.nots then s1 else Emit(s1, Raw(ops[1]), Raw(ops[1]));
    assert ops[1..][0] == ops[1] && ops[1..][1..] == [];
    assert [a] + [b] == [a, b];
    assert OrInvert(s1, ops[1..], [a]) == OrInvert(s2, [], [a, b]);
    OrBranch(s, lst);
    var r := Step(s, lst).value;
    assert r.lines == s2.lines + [Gate(|s2.lines| + 1, a, b)];
  }

  // ----- Errors -----

  /** The three `ValueError`s and the `lst[0]` of an empty list. */
  lemma StepErrors(s: State, lst: seq<Elem>)
    ensures Step(s, lst) == Err(IndexError) <==> lst == []
    ensures Step(s, lst) == Err(NotArity) <==> |lst| > 2 && lst[0] == Tok("not")
    ensures Step(s, lst).Err? && Step(s, lst).error.TooFewOperands? <==>
      |lst| == 2 && (lst[0] == Tok("AND") || lst[0] == Tok("OR"))
    ensures Step(s, lst).Err? && Step(s, lst).error.UnknownOperator? <==>
      |lst| >= 2 && lst[0] != Tok("not") && lst[0] != Tok("AND") && lst[0] != Tok("OR")
    ensures Step(s, lst).Err? && Step(s, lst).error.UnknownOperator? ==> Step(s, lst).error.head == lst[0]
    ensures Step(s, lst).Err? <==>
      lst == [] || (|lst| >= 2 && !(|lst| == 2 && lst[0] == Tok("not")) &&
                    !(|lst| >= 3 && (lst[0] == Tok("AND") || lst[0] == Tok("OR"))))
  {
  }

  // ----- Reuse through the dictionaries -----

  /** After a node of two or more elements, `temp_vars` maps it to the wire
      of its last line, and a `not` node's operand is mapped in `not_vars`
      to the same wire; no other key changes. */
  lemma StepRecords(s: State, lst: seq<Elem>)
    requires |lst| >= 2 && Step(s, lst).Ok?
    ensures var r := Step(s, lst).value;
      && Grp(lst) in r.temps && r.temps[Grp(lst)] == Temp(|r.lines|)
      && (forall e :: e in s.temps ==> e in r.temps)
      && (forall e :: e in r.temps && e != Grp(lst) ==> e in s.temps && r.temps[e] == s.temps[e])
      && (lst[0] == Tok("not") ==> r.nots == s.nots[lst[1] := Temp(|r.lines|)])
      && (lst[0] != Tok("not") ==> r.nots == s.nots)
  {
    if lst[0] != Tok("not") && lst[0] != Tok("AND") {
      OrWires(s, lst[1..], []);
    }
  }
}
