/** The lowering of mycode_netlist.py:77-138 with its two slips put right,
    and the proof that the corrected circuit computes the expression:
    - a list of one element (a parenthesised group) passes on the wire of
      its element instead of being skipped, so whoever reads the group
      reads that wire;
    - an `OR` operand that no `not` node has inverted is inverted through
      its `temp_vars` wire, not through its raw text. */
module Corrected {
  import opened Nested
  import opened Netlist
  import Traversal

  // ----- What the expression means -----

  /** The value of an expression node for given variable values: a
      one-element list is its element, and `not`, `AND`, `OR` nodes apply
      their operation to their (first) operands. */
  function Value(e: Elem, env: string -> bool): bool {
    match e
    case Tok(n) => env(n)
    case Grp(xs) =>
      if |xs| == 1 then Value(xs[0], env)
      else if |xs| == 2 && xs[0] == Tok("not") then !Value(xs[1], env)
      else if |xs| >= 3 && xs[0] == Tok("AND") then Value(xs[1], env) && Value(xs[2], env)
      else if |xs| >= 3 && xs[0] == Tok("OR") then Value(xs[1], env) || Value(xs[2], env)
      else false
  }

  // ----- What the lines compute -----

  /** The value of a wire, given the values of the lines so far: a raw
      variable name reads the variable; the raw text of a list is no signal. */
  function WireVal(w: Wire, vals: seq<bool>, env: string -> bool): bool {
    match w
    case Temp(k) => if 1 <= k <= |vals| then vals[k - 1] else false
    case Raw(Tok(n)) => env(n)
    case Raw(Grp(_)) => false
  }

  /** The values of `temp_1`, `temp_2`, ... in order. */
  function Vals(lines: seq<Gate>, env: string -> bool): (v: seq<bool>)
    ensures |v| == |lines|
  {
    if lines == [] then []
    else
      var p := Vals(lines[..|lines| - 1], env);
      var g := lines[|lines| - 1];
      p + [!(WireVal(g.a, p, env) && WireVal(g.b, p, env))]
  }

  // ----- The corrected lowering -----

  /** The operand loop of an `OR` node, inverting each operand's wire. */
  function OrInvert(s: State, ops: seq<Elem>, acc: seq<Wire>): (r: (State, seq<Wire>))
    ensures |r.1| == |acc| + |ops|
    ensures r.0.temps == s.temps && r.0.nots == s.nots
    decreases ops
  {
    if ops == [] then (s, acc)
    else if ops[0] in s.nots then OrInvert(s, ops[1..], acc + [s.nots[ops[0]]])
    else
      var w := Lookup(s.temps, ops[0]);
      var s1 := Emit(s, w, w);
      OrInvert(s1, ops[1..], acc + [Temp(|s1.lines|)])
  }

  /** The corrected work for one list; `not` and `AND` nodes and the
      errors are as written. */
  function Step(s: State, lst: seq<Elem>): Result<State> {
    if |lst| == 1 then Ok(s.(temps := s.temps[Grp(lst) := Lookup(s.temps, lst[0])]))
    else if |lst| >= 3 && lst[0] == Tok("OR") then
      var inverted := OrInvert(s, lst[1..], []);
      var s2 := Emit(inverted.0, inverted.1[0], inverted.1[1]);
      Ok(s2.(temps := s2.temps[Grp(lst) := Temp(|s2.lines|)]))
    else Netlist.Step(s, lst)
  }

  function Run(order: seq<seq<Elem>>, s: State): Result<State> {
    if order == [] then Ok(s)
    else
      match Step(s, order[0])
      case Err(e) => Err(e)
      case Ok(next) => Run(order[1..], next)
  }

  // ----- The invariant: every recorded wire carries its node's value -----

  predicate Sound(s: State, env: string -> bool) {
    && Good(s)
    && (forall e :: e in s.temps ==> WireVal(s.temps[e], Vals(s.lines, env), env) == Value(e, env))
    && (forall e :: e in s.nots ==> WireVal(s.nots[e], Vals(s.lines, env), env) == !Value(e, env))
  }

  /** An element whose wire `Lookup` finds: a variable, or a processed list. */
  predicate Known(temps: map<Elem, Wire>, e: Elem) {
    e.Tok? || e in temps
  }

  lemma ValsEmit(s: State, a: Wire, b: Wire, env: string -> bool)
    ensures var v := Vals(s.lines, env);
      Vals(Emit(s, a, b).lines, env) == v + [!(WireVal(a, v, env) && WireVal(b, v, env))]
  {
    var lines := Emit(s, a, b).lines;
    assert lines[..|lines| - 1] == s.lines;
  }

  lemma WireKeep(w: Wire, v: seq<bool>, x: bool, env: string -> bool)
    requires Earlier(w, |v|)
    ensures WireVal(w, v + [x], env) == WireVal(w, v, env)
  {
    if w.Temp? {
      assert (v + [x])[w.k - 1] == v[w.k - 1];
    }
  }

  /** A new line keeps every recorded wire's value, and its own wire is
      the NAND of its inputs. */
  lemma EmitSound(s: State, a: Wire, b: Wire, env: string -> bool)
    requires Sound(s, env) && Earlier(a, |s.lines|) && Earlier(b, |s.lines|)
    ensures Sound(Emit(s, a, b), env)
    ensures var v := Vals(s.lines, env);
      WireVal(Temp(|s.lines| + 1), Vals(Emit(s, a, b).lines, env), env) == !(WireVal(a, v, env) && WireVal(b, v, env))
  {
    var v := Vals(s.lines, env);
    var x := !(WireVal(a, v, env) && WireVal(b, v, env));
    EmitGood(s, a, b);
    ValsEmit(s, a, b, env);
    forall e | e in s.temps ensures WireVal(s.temps[e], v + [x], env) == Value(e, env) {
      WireKeep(s.temps[e], v, x, env);
    }
    forall e | e in s.nots ensures WireVal(s.nots[e], v + [x], env) == !Value(e, env) {
      WireKeep(s.nots[e], v, x, env);
    }
  }

  lemma LookupSound(s: State, e: Elem, env: string -> bool)
    requires Sound(s, env) && Known(s.temps, e)
    ensures Earlier(Lookup(s.temps, e), |s.lines|)
    ensures WireVal(Lookup(s.temps, e), Vals(s.lines, env), env) == Value(e, env)
  {
  }

  lemma PutTemp(s: State, e: Elem, w: Wire, env: string -> bool)
    requires Sound(s, env) && Earlier(w, |s.lines|) && WireVal(w, Vals(s.lines, env), env) == Value(e, env)
    ensures Sound(s.(temps := s.temps[e := w]), env)
  {
  }

  // ----- The operand loop -----

  /** `ws` are wires of the inverted values of `es`. */
  predicate Inverts(ws: seq<Wire>, es: seq<Elem>, s: State, env: string -> bool) {
    |ws| == |es| &&
    forall i :: 0 <= i < |ws| ==>
      Earlier(ws[i], |s.lines|) && WireVal(ws[i], Vals(s.lines, env), env) == !Value(es[i], env)
  }

  lemma InvertsEmit(ws: seq<Wire>, es: seq<Elem>, s: State, a: Wire, b: Wire, env: string -> bool)
    requires Inverts(ws, es, s, env)
    ensures Inverts(ws, es, Emit(s, a, b), env)
  {
    var v := Vals(s.lines, env);
    var x := !(WireVal(a, v, env) && WireVal(b, v, env));
    ValsEmit(s, a, b, env);
    forall i | 0 <= i < |ws| ensures WireVal(ws[i], v + [x], env) == !Value(es[i], env) {
      WireKeep(ws[i], v, x, env);
    }
  }

  lemma InvertsAppend(ws: seq<Wire>, es: seq<Elem>, s: State, w: Wire, e: Elem, env: string -> bool)
    requires Inverts(ws, es, s, env)
    requires Earlier(w, |s.lines|) && WireVal(w, Vals(s.lines, env), env) == !Value(e, env)
    ensures Inverts(ws + [w], es + [e], s, env)
  {
    forall i | 0 <= i < |ws| + 1
      ensures Earlier((ws + [w])[i], |s.lines|)
      ensures WireVal((ws + [w])[i], Vals(s.lines, env), env) == !Value((es + [e])[i], env)
    {
      if i < |ws| {
        assert (ws + [w])[i] == ws[i] && (es + [e])[i] == es[i];
      }
    }
  }

  /** The operand loop inverts every operand and keeps the invariant. */
  lemma {:induction false} OrInvertSound(s: State, ops: seq<Elem>, acc: seq<Wire>, done: seq<Elem>, env: string -> bool)
    requires Sound(s, env) && Inverts(acc, done, s, env)
    requires forall k :: 0 <= k < |ops| ==> Known(s.temps, ops[k])
    ensures var r := OrInvert(s, ops, acc); Sound(r.0, env) && Inverts(r.1, done + ops, r.0, env)
    decreases ops
  {
    if ops == [] {
      assert done + ops == done;
    } else {
      var rest := ops[1..];
      assert done + ops == (done + [ops[0]]) + rest;
      assert forall k :: 0 <= k < |rest| ==> rest[k] == ops[k + 1];
      assert Known(s.temps, ops[0]);
      if ops[0] in s.nots {
        InvertsAppend(acc, done, s, s.nots[ops[0]], ops[0], env);
        OrInvertSound(s, rest, acc + [s.nots[ops[0]]], done + [ops[0]], env);
      } else {
        var s1 := Emit(s, Lookup(s.temps, ops[0]), Lookup(s.temps, ops[0]));
        InvertOne(s, acc, done, ops[0], env);
        OrInvertSound(s1, rest, acc + [Temp(|s1.lines|)], done + [ops[0]], env);
      }
    }
  }

  /** An inverter for one operand keeps the invariant and inverts it. */
  lemma InvertOne(s: State, acc: seq<Wire>, done: seq<Elem>, op: Elem, env: string -> bool)
    requires Sound(s, env) && Inverts(acc, done, s, env) && Known(s.temps, op)
    ensures var w := Lookup(s.temps, op); var s1 := Emit(s, w, w);
      Sound(s1, env) && Inverts(acc + [Temp(|s1.lines|)], done + [op], s1, env)
  {
    var w := Lookup(s.temps, op);
    LookupSound(s, op, env);
    var s1 := Emit(s, w, w);
    EmitSound(s, w, w, env);
    InvertsEmit(acc, done, s, w, w, env);
    InvertsAppend(acc, done, s1, Temp(|s1.lines|), op, env);
  }

  // ----- One step -----

  /** Every element of `lst` is a variable or a processed list. */
  predicate Ready(temps: map<Elem, Wire>, lst: seq<Elem>) {
    forall k :: 0 <= k < |lst| ==> Known(temps, lst[k])
  }

  /** A step whose operands are ready records its node with a wire that
      carries the node's value, and forgets nothing. */
  lemma StepSound(s: State, lst: seq<Elem>, env: string -> bool)
    requires Sound(s, env) && Ready(s.temps, lst) && Step(s, lst).Ok?
    ensures var r := Step(s, lst).value;
      Sound(r, env) && Grp(lst) in r.temps && forall e :: e in s.temps ==> e in r.temps
  {
    if |lst| == 1 {
      LookupSound(s, lst[0], env);
      PutTemp(s, Grp(lst), Lookup(s.temps, lst[0]), env);
    } else if |lst| >= 3 && lst[0] == Tok("OR") {
      OrSound(s, lst, env);
    } else if lst[0] == Tok("not") {
      NotSound(s, lst, env);
    } else {
      AndSound(s, lst, env);
    }
  }

  lemma NotSound(s: State, lst: seq<Elem>, env: string -> bool)
    requires Sound(s, env) && Ready(s.temps, lst) && |lst| == 2 && lst[0] == Tok("not")
    ensures var r := Step(s, lst).value;
      Sound(r, env) && Grp(lst) in r.temps && forall e :: e in s.temps ==> e in r.temps
  {
    NotBranch(s, lst);
    var input := Lookup(s.temps, lst[1]);
    LookupSound(s, lst[1], env);
    var s1 := Emit(s, input, input);
    EmitSound(s, input, input, env);
    var t := Temp(|s1.lines|);
    assert Value(Grp(lst), env) == !Value(lst[1], env);
    PutTemp(s1, Grp(lst), t, env);
    assert Step(s, lst).value == State(s1.lines, s1.temps[Grp(lst) := t], s1.nots[lst[1] := t]);
  }

  lemma AndSound(s: State, lst: seq<Elem>, env: string -> bool)
    requires Sound(s, env) && Ready(s.temps, lst) && |lst| >= 2 && lst[0] != Tok("not")
    requires !(|lst| >= 3 && lst[0] == Tok("OR")) && Step(s, lst).Ok?
    ensures var r := Step(s, lst).value;
      Sound(r, env) && Grp(lst) in r.temps && forall e :: e in s.temps ==> e in r.temps
  {
    assert |lst| >= 3 && lst[0] == Tok("AND");
    AndBranch(s, lst);
    var p, q := Lookup(s.temps, lst[1]), Lookup(s.temps, lst[2]);
    LookupSound(s, lst[1], env);
    LookupSound(s, lst[2], env);
    var s1 := Emit(s, p, q);
    EmitSound(s, p, q, env);
    var t := Temp(|s1.lines|);
    var s2 := Emit(s1, t, t);
    EmitSound(s1, t, t, env);
    assert Value(Grp(lst), env) == (Value(lst[1], env) && Value(lst[2], env));
    PutTemp(s2, Grp(lst), Temp(|s2.lines|), env);
  }

  lemma OrSound(s: State, lst: seq<Elem>, env: string -> bool)
    requires Sound(s, env) && Ready(s.temps, lst) && |lst| >= 3 && lst[0] == Tok("OR")
    ensures var r := Step(s, lst).value;
      Sound(r, env) && Grp(lst) in r.temps && forall e :: e in s.temps ==> e in r.temps
  {
    var ops := lst[1..];
    assert forall k :: 0 <= k < |ops| ==> ops[k] == lst[k + 1];
    assert Inverts([], [], s, env);
    OrInvertSound(s, ops, [], [], env);
    var inverted := OrInvert(s, ops, []);
    var s1, ws := inverted.0, inverted.1;
    assert [] + ops == ops;
    assert Earlier(ws[0], |s1.lines|) && Earlier(ws[1], |s1.lines|);
    EmitSound(s1, ws[0], ws[1], env);
    var s2 := Emit(s1, ws[0], ws[1]);
    assert Value(Grp(lst), env) == (Value(lst[1], env) || Value(lst[2], env));
    PutTemp(s2, Grp(lst), Temp(|s2.lines|), env);
  }

  // ----- The whole order -----

  /** Each list's sub-lists come earlier in the order. */
  predicate ChildrenBefore(order: seq<seq<Elem>>) {
    forall i, c :: 0 <= i < |order| && 0 <= c < |order[i]| && order[i][c].Grp? ==>
      order[i][c].items in order[..i]
  }

  lemma {:induction false} RunSound(order: seq<seq<Elem>>, i: nat, s: State, env: string -> bool)
    requires ChildrenBefore(order) && i <= |order| && Sound(s, env)
    requires forall j :: 0 <= j < i ==> Grp(order[j]) in s.temps
    requires Run(order[i..], s).Ok?
    ensures Sound(Run(order[i..], s).value, env)
    ensures forall j :: 0 <= j < |order| ==> Grp(order[j]) in Run(order[i..], s).value.temps
    decreases |order| - i
  {
    if i < |order| {
      var lst := order[i];
      assert order[i..][0] == lst && order[i..][1..] == order[i + 1..];
      forall k | 0 <= k < |lst| ensures Known(s.temps, lst[k]) {
        if lst[k].Grp? {
          assert lst[k].items in order[..i];
          var j :| 0 <= j < i && order[..i][j] == lst[k].items;
          assert Grp(order[j]) == lst[k];
        }
      }
      StepSound(s, lst, env);
      RunSound(order, i + 1, Step(s, lst).value, env);
    } else {
      assert order[i..] == [];
    }
  }

  /** The innermost-first order puts each list's sub-lists before it. */
  lemma TraversalChildrenBefore(root: Elem)
    ensures ChildrenBefore(Traversal.Traversal(root))
  {
    var sorted: seq<Traversal.Entry> := Traversal.SortDesc(Traversal.Walk(root, 0));
    var order: seq<seq<Elem>> := Traversal.Traversal(root);
    Traversal.ChildrenFirst(root);
    forall i, c | 0 <= i < |order| && 0 <= c < |order[i]| && order[i][c].Grp?
      ensures order[i][c].items in order[..i]
    {
      var child := Traversal.Entry(sorted[i].depth + 1, sorted[i].node[c].items);
      assert child in sorted[..i];
      var j :| 0 <= j < i && sorted[..i][j] == child;
      assert order[..i][j] == order[j];
    }
  }

  /** The corrected lowering of the innermost-first order of an
      expression's lists computes the expression: the wire recorded for the
      whole expression has its value, for every choice of variable values. */
  lemma CircuitComputes(xs: seq<Elem>, env: string -> bool)
    requires Run(Traversal.Traversal(Grp(xs)), Init).Ok?
    ensures var s := Run(Traversal.Traversal(Grp(xs)), Init).value;
      Grp(xs) in s.temps && WireVal(s.temps[Grp(xs)], Vals(s.lines, env), env) == Value(Grp(xs), env)
  {
    var order: seq<seq<Elem>> := Traversal.Traversal(Grp(xs));
    TraversalChildrenBefore(Grp(xs));
    Traversal.RootLast(xs);
    assert order[|order| - 1] == xs;
    assert order[0..] == order;
    RunSound(order, 0, Init, env);
  }
}
