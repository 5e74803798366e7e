/** The three precedence passes of Main.py:24-84: `account_NOT` folds each
    `NOT` with the element after it, then `account_AND` and `account_OR`
    fold `X op Y` runs left to right, each pass descending into sub-lists. */
module Precedence {
  import opened Nested

  /** The rest of a pass's result, with `out` already produced in front. */
  function Prepend(out: seq<Elem>, r: Result<seq<Elem>>): (p: Result<seq<Elem>>)
    ensures p.Ok? <==> r.Ok?
    ensures p.Ok? ==> p.value == out + r.value
  {
    match r
    case Err(e) => Err(e)
    case Ok(w) => Ok(out + w)
  }

  lemma PrependTwice(out: seq<Elem>, h: seq<Elem>, r: Result<seq<Elem>>)
    ensures Prepend(out, Prepend(h, r)) == Prepend(out + h, r)
  {
    if r.Ok? {
      assert out + (h + r.value) == out + h + r.value;
    }
  }

  /** A pass's result on a list operand, as the element that takes its place. */
  function Lift(r: Result<seq<Elem>>): (e: Result<Elem>)
    ensures e.Ok? <==> r.Ok?
    ensures e.Ok? ==> e.value == Grp(r.value)
    ensures e.Err? ==> e.error == r.error
  {
    match r
    case Ok(v) => Ok(Grp(v))
    case Err(err) => Err(err)
  }

  /** No token `op` anywhere in the nested value. */
  predicate Free(op: string, xs: seq<Elem>) {
    forall k :: 0 <= k < |xs| ==> xs[k] != Tok(op) && (xs[k].Grp? ==> Free(op, xs[k].items))
  }

  /** The first `n` positions of `level` and `back` hold the same elements. */
  predicate Agrees(level: seq<Elem>, back: seq<Elem>, n: nat) {
    n <= |level| && n <= |back| && forall j :: 0 <= j < n ==> level[j] == back[j]
  }

  /** One more position agrees when it already holds the same element. */
  lemma AgreesStep(level: seq<Elem>, back: seq<Elem>, n: nat)
    requires Agrees(level, back, n) && n < |level| && n < |back| && level[n] == back[n]
    ensures Agrees(level, back, n + 1)
  {
  }

  /** One more position agrees once it is overwritten with its element of `back`. */
  lemma AgreesSet(level: seq<Elem>, back: seq<Elem>, n: nat, v: Elem)
    requires Agrees(level, back, n) && n < |level| && n < |back| && back[n] == v
    ensures Agrees(level[n := v], back, n + 1)
  {
  }

  // ----- account_NOT -----

  /** `account_NOT` (Main.py:69-84), read from the front: a `NOT` and the
      element after it become `["not", operand]`, a `NOT` with nothing
      after it fails, every other element is kept, and lists, the operand
      included, are passed through first. */
  function NotPass(xs: seq<Elem>): Result<seq<Elem>> {
    if xs == [] then Ok([])
    else if xs[0] == Tok("NOT") then
      if |xs| == 1 then Err(IndexError)
      else
        match xs[1]
        case Tok(_) => Prepend([Grp([Tok("not"), xs[1]])], NotPass(xs[2..]))
        case Grp(ys) =>
          match NotPass(ys)
          case Err(e) => Err(e)
          case Ok(v) => Prepend([Grp([Tok("not"), Grp(v)])], NotPass(xs[2..]))
    else
      match xs[0]
      case Tok(_) => Prepend([xs[0]], NotPass(xs[1..]))
      case Grp(ys) =>
        match NotPass(ys)
        case Err(e) => Err(e)
        case Ok(v) => Prepend([Grp(v)], NotPass(xs[1..]))
  }

  /** The argument as `account_NOT` leaves it once it succeeds. Each list
      met in position is replaced by the list the pass made of it; a list
      taken as a `NOT` operand stays in its slot, but the recursive call has
      done the same to the lists inside it. */
  function NotBack(xs: seq<Elem>): (after: seq<Elem>)
    ensures |after| == |xs|
  {
    if xs == [] then []
    else if xs[0] == Tok("NOT") then
      if |xs| == 1 then xs
      else
        var operand := match xs[1]
          case Tok(_) => xs[1]
          case Grp(ys) => Grp(NotBack(ys));
        [xs[0], operand] + NotBack(xs[2..])
    else
      var current := match xs[0]
        case Tok(_) => xs[0]
        case Grp(ys) => if NotPass(ys).Ok? then Grp(NotPass(ys).value) else xs[0];
      [current] + NotBack(xs[1..])
  }

  /** `account_NOT(expression)`: the result, and the argument as the loop
      leaves it after its in-place writes. */
  method AccountNot(expression: seq<Elem>) returns (r: Result<seq<Elem>>, after: seq<Elem>)
    ensures r == NotPass(expression)
    ensures r.Ok? ==> after == NotBack(expression)
    decreases expression
  {
    var level := expression;
    var output: seq<Elem> := [];
    var i := 0;
    assert expression[0..] == expression;
    assert Prepend([], NotPass(expression)) == NotPass(expression) by {
      if NotPass(expression).Ok? {
        assert [] + NotPass(expression).value == NotPass(expression).value;
      }
    }
    while i < |level|
      invariant 0 <= i <= |level| == |expression|
      invariant forall j :: i <= j < |level| ==> level[j] == expression[j]
      invariant NotPass(expression) == Prepend(output, NotPass(expression[i..]))
      invariant Agrees(level, NotBack(expression), i)
      invariant NotBack(expression)[i..] == NotBack(expression[i..])
      decreases |level| - i
    {
      var rest := expression[i..];
      assert rest[0] == expression[i] && rest[1..] == expression[i + 1..];
      if level[i].Grp? {
        var sub, _ := NotDescend(expression, i);
        if sub.Err? {
          return Err(sub.error), level;
        }
        level := level[i := sub.value];
      }
      if level[i] == Tok("NOT") {
        if i + 1 >= |level| {
          return Err(IndexError), level;
        }
        assert rest[1] == expression[i + 1] && rest[2..] == expression[i + 2..];
        var operand, back := NotDescend(expression, i + 1);
        if operand.Err? {
          return Err(operand.error), level;
        }
        level := level[i + 1 := back];
        var node := Grp([Tok("not"), operand.value]);
        NotPassOperator(expression, i, output, node);
        NotBackOperator(expression, i);
        output := output + [node];
        i := i + 2;
      } else {
        NotPassOther(expression, i, output, level[i]);
        NotBackOther(expression, i);
        output := output + [level[i]];
        i := i + 1;
      }
    }
    assert expression[i..] == [];
    assert output + [] == output;
    return Ok(output), level;
  }

  /** The pass at a `NOT` in position `i` emits `node` and moves on by two. */
  lemma NotPassOperator(xs: seq<Elem>, i: nat, out: seq<Elem>, node: Elem)
    requires i + 1 < |xs| && xs[i] == Tok("NOT")
    requires xs[i + 1].Tok? ==> node == Grp([Tok("not"), xs[i + 1]])
    requires xs[i + 1].Grp? ==> NotPass(xs[i + 1].items).Ok? && node == Grp([Tok("not"), Grp(NotPass(xs[i + 1].items).value)])
    ensures Prepend(out, NotPass(xs[i..])) == Prepend(out + [node], NotPass(xs[i + 2..]))
  {
    var rest := xs[i..];
    assert rest[0] == xs[i] && rest[1] == xs[i + 1] && rest[2..] == xs[i + 2..];
    assert NotPass(rest) == Prepend([node], NotPass(xs[i + 2..]));
    PrependTwice(out, [node], NotPass(xs[i + 2..]));
  }

  /** The pass at any other element in position `i` emits `x`, the element
      or the list the pass made of it, and moves on by one. */
  lemma NotPassOther(xs: seq<Elem>, i: nat, out: seq<Elem>, x: Elem)
    requires i < |xs| && xs[i] != Tok("NOT")
    requires xs[i].Tok? ==> x == xs[i]
    requires xs[i].Grp? ==> NotPass(xs[i].items).Ok? && x == Grp(NotPass(xs[i].items).value)
    ensures Prepend(out, NotPass(xs[i..])) == Prepend(out + [x], NotPass(xs[i + 1..]))
  {
    var rest := xs[i..];
    assert rest[0] == xs[i] && rest[1..] == xs[i + 1..];
    assert NotPass(rest) == Prepend([x], NotPass(xs[i + 1..]));
    PrependTwice(out, [x], NotPass(xs[i + 1..]));
  }

  /** `if isinstance(x, list): x = account_NOT(x)` on the element in
      position `k`: a list is passed through, and the list object itself is
      left as the recursive call leaves it (`back`); a token is taken as it
      is. */
  method NotDescend(expression: seq<Elem>, k: nat) returns (r: Result<Elem>, back: Elem)
    requires k < |expression|
    ensures expression[k].Tok? ==> r == Ok(expression[k]) && back == expression[k]
    ensures expression[k].Grp? ==> r == Lift(NotPass(expression[k].items))
    ensures expression[k].Grp? && r.Ok? ==> back == Grp(NotBack(expression[k].items))
    decreases expression, 0
  {
    var operand := expression[k];
    if operand.Tok? {
      return Ok(operand), operand;
    }
    var sub, subAfter := AccountNot(operand.items);
    if sub.Err? {
      return Err(sub.error), operand;
    }
    return Ok(Grp(sub.value)), Grp(subAfter);
  }

  /** At a `NOT` the loop reaches, the written-back argument holds the
      token and the operand updated within. */
  lemma NotBackOperator(xs: seq<Elem>, i: nat)
    requires i + 1 < |xs| && xs[i] == Tok("NOT") && NotBack(xs)[i..] == NotBack(xs[i..])
    ensures NotBack(xs)[i] == xs[i]
    ensures NotBack(xs)[i + 1] == if xs[i + 1].Grp? then Grp(NotBack(xs[i + 1].items)) else xs[i + 1]
    ensures NotBack(xs)[i + 2..] == NotBack(xs[i + 2..])
  {
    var rest := xs[i..];
    assert rest[0] == xs[i] && rest[1] == xs[i + 1] && rest[2..] == xs[i + 2..];
    assert NotBack(xs)[i + 2..] == NotBack(rest)[2..];
  }

  /** At any other element the loop reaches, the written-back argument holds
      the element, or the list the pass made of it. */
  lemma NotBackOther(xs: seq<Elem>, i: nat)
    requires i < |xs| && xs[i] != Tok("NOT") && NotBack(xs)[i..] == NotBack(xs[i..])
    ensures NotBack(xs)[i] == if xs[i].Grp? && NotPass(xs[i].items).Ok? then Grp(NotPass(xs[i].items).value) else xs[i]
    ensures NotBack(xs)[i + 1..] == NotBack(xs[i + 1..])
  {
    var rest := xs[i..];
    assert rest[0] == xs[i] && rest[1..] == xs[i + 1..];
    assert NotBack(xs)[i + 1..] == NotBack(rest)[1..];
  }

  /** A level with no `NOT` anywhere is returned unchanged. */
  lemma {:induction false} NotCopies(xs: seq<Elem>)
    requires Free("NOT", xs)
    ensures NotPass(xs) == Ok(xs)
  {
    if xs != [] {
      assert Free("NOT", xs[1..]) by {
        forall k | 0 <= k < |xs[1..]| ensures xs[1..][k] != Tok("NOT") && (xs[1..][k].Grp? ==> Free("NOT", xs[1..][k].items)) {
          assert xs[1..][k] == xs[k + 1];
        }
      }
      NotCopies(xs[1..]);
      if xs[0].Grp? {
        NotCopies(xs[0].items);
      }
      assert [xs[0]] + xs[1..] == xs;
    }
  }

  /** With no `NOT` anywhere, the pass writes back exactly what was there. */
  lemma {:induction false} NotBackCopies(xs: seq<Elem>)
    requires Free("NOT", xs)
    ensures NotBack(xs) == xs
  {
    if xs != [] {
      assert Free("NOT", xs[1..]) by {
        forall k | 0 <= k < |xs[1..]| ensures xs[1..][k] != Tok("NOT") && (xs[1..][k].Grp? ==> Free("NOT", xs[1..][k].items)) {
          assert xs[1..][k] == xs[k + 1];
        }
      }
      NotBackCopies(xs[1..]);
      if xs[0].Grp? {
        NotCopies(xs[0].items);
      }
      assert [xs[0]] + xs[1..] == xs;
    }
  }

  /** The argument `[NOT, [NOT, A, [NOT, B]]]` after the pass: the operand
      list keeps its own `NOT` unfolded, but the list inside it, met in
      position by the recursive call, is replaced by its result. */
  lemma NotBackOperandList()
    ensures NotBack([Tok("NOT"), Grp([Tok("NOT"), Tok("A"), Grp([Tok("NOT"), Tok("B")])])])
            == [Tok("NOT"), Grp([Tok("NOT"), Tok("A"), Grp([Grp([Tok("not"), Tok("B")])])])]
  {
    var inner := [Tok("NOT"), Tok("B")];
    assert inner[0] == Tok("NOT") && inner[1] == Tok("B") && inner[2..] == [];
    assert NotPass(inner[2..]) == Ok([]);
    assert [Grp([Tok("not"), Tok("B")])] + [] == [Grp([Tok("not"), Tok("B")])];
    assert NotPass(inner) == Ok([Grp([Tok("not"), Tok("B")])]);
    var tail := [Grp(inner)];
    assert tail[0] != Tok("NOT") && tail[1..] == [];
    assert NotBack(tail) == [Grp([Grp([Tok("not"), Tok("B")])])];
    var operand := [Tok("NOT"), Tok("A"), Grp(inner)];
    assert operand[1] == Tok("A") && operand[2..] == tail;
    assert NotBack(operand) == [Tok("NOT"), Tok("A"), Grp([Grp([Tok("not"), Tok("B")])])];
    var xs := [Tok("NOT"), Grp(operand)];
    assert xs[1] == Grp(operand) && xs[2..] == [];
  }

  /** A `NOT` in last position fails on the missing operand. */
  lemma {:induction false} NotTrailing(pre: seq<Elem>)
    requires Free("NOT", pre)
    ensures NotPass(pre + [Tok("NOT")]) == Err(IndexError)
  {
    var xs := pre + [Tok("NOT")];
    if pre == [] {
      assert xs == [Tok("NOT")];
    } else {
      assert xs[0] == pre[0] && xs[1..] == pre[1..] + [Tok("NOT")];
      assert Free("NOT", pre[1..]) by {
        forall k | 0 <= k < |pre[1..]| ensures pre[1..][k] != Tok("NOT") && (pre[1..][k].Grp? ==> Free("NOT", pre[1..][k].items)) {
          assert pre[1..][k] == pre[k + 1];
        }
      }
      NotTrailing(pre[1..]);
      if pre[0].Grp? {
        NotCopies(pre[0].items);
      }
    }
  }

  /** A `NOT` whose next element is another `NOT` takes that token itself as
      its operand; the element after it is kept as it is. */
  lemma NotNot(a: string)
    requires a != "NOT"
    ensures NotPass([Tok("NOT"), Tok("NOT"), Tok(a)]) == Ok([Grp([Tok("not"), Tok("NOT")]), Tok(a)])
  {
    var xs := [Tok("NOT"), Tok("NOT"), Tok(a)];
    var tail := [Tok(a)];
    assert tail[0] != Tok("NOT") && tail[1..] == [];
    assert NotPass(tail[1..]) == Ok([]);
    assert tail + [] == tail;
    assert NotPass(tail) == Ok(tail);
    assert xs[1] == Tok("NOT") && xs[2..] == tail;
    assert [Grp([Tok("not"), Tok("NOT")])] + tail == [Grp([Tok("not"), Tok("NOT")]), Tok(a)];
  }

  // ----- account_AND and account_OR -----

  /** The loop of `account_AND`/`account_OR` (Main.py:28-42, 52-66) for
      operator `op` from position `i` of the level `xs`, with `out` the
      output so far. At `op` it checks the element before it (the last one
      when `i` is 0), then the one after it, then pops the output: a falsy
      neighbour stops the index from advancing, a missing one or an empty
      output fails. */
  function BinLoop(op: string, xs: seq<Elem>, i: nat, out: seq<Elem>): Result<seq<Elem>>
    decreases xs, 0, |xs| - i
  {
    if i >= |xs| then Ok(out)
    else if xs[i] == Tok(op) then
      var prev := if i == 0 then xs[|xs| - 1] else xs[i - 1];
      if !Truthy(prev) then Err(Diverges)
      else if i + 1 == |xs| then Err(IndexError)
      else if !Truthy(xs[i + 1]) then Err(Diverges)
      else if out == [] then Err(IndexError)
      else
        match xs[i + 1]
        case Tok(_) => BinLoop(op, xs, i + 2, out[..|out| - 1] + [Grp([Tok(op), out[|out| - 1], xs[i + 1]])])
        case Grp(ys) =>
          match BinaryPass(op, ys)
          case Err(e) => Err(e)
          case Ok(v) => BinLoop(op, xs, i + 2, out[..|out| - 1] + [Grp([Tok(op), out[|out| - 1], Grp(v)])])
    else
      match xs[i]
      case Tok(_) => BinLoop(op, xs, i + 1, out + [xs[i]])
      case Grp(ys) =>
        match BinaryPass(op, ys)
        case Err(e) => Err(e)
        case Ok(v) => BinLoop(op, xs, i + 1, out + [Grp(v)])
  }

  /** `account_AND` (op `AND`) or `account_OR` (op `OR`) on one level. */
  function BinaryPass(op: string, xs: seq<Elem>): Result<seq<Elem>>
    decreases xs, 1
  {
    BinLoop(op, xs, 0, [])
  }

  /** The argument as `account_AND`/`account_OR` leave it once they
      succeed. Each list met in position is replaced by the list the pass
      made of it; a list taken as a right operand stays in its slot, but the
      recursive call has done the same to the lists inside it. */
  function BinBack(op: string, xs: seq<Elem>): (after: seq<Elem>)
    ensures |after| == |xs|
  {
    if xs == [] then []
    else if xs[0] == Tok(op) then
      if |xs| == 1 then xs
      else
        var operand := match xs[1]
          case Tok(_) => xs[1]
          case Grp(ys) => Grp(BinBack(op, ys));
        [xs[0], operand] + BinBack(op, xs[2..])
    else
      var current := match xs[0]
        case Tok(_) => xs[0]
        case Grp(ys) => if BinaryPass(op, ys).Ok? then Grp(BinaryPass(op, ys).value) else xs[0];
      [current] + BinBack(op, xs[1..])
  }

  /** The shared body of `account_AND` and `account_OR`. */
  method AccountBinary(op: string, expression: seq<Elem>) returns (r: Result<seq<Elem>>, after: seq<Elem>)
    ensures r == BinaryPass(op, expression)
    ensures r.Ok? ==> after == BinBack(op, expression)
    decreases expression
  {
    var level := expression;
    var output: seq<Elem> := [];
    var i := 0;
    assert expression[0..] == expression;
    while i < |level|
      invariant 0 <= i <= |level| == |expression|
      invariant forall j :: i <= j < |level| ==> level[j] == expression[j]
      invariant BinaryPass(op, expression) == BinLoop(op, expression, i, output)
      invariant Agrees(level, BinBack(op, expression), i)
      invariant BinBack(op, expression)[i..] == BinBack(op, expression[i..])
      decreases |level| - i
    {
      // A list is written back as the list the pass makes of it; being a
      // list, it is then never the operator token and is appended.
      if level[i].Grp? {
        var sub, _ := BinDescend(op, expression, i);
        if sub.Err? {
          return Err(sub.error), level;
        }
        BinBackOther(op, expression, i);
        AgreesSet(level, BinBack(op, expression), i, sub.value);
        level := level[i := sub.value];
        output := output + [level[i]];
        i := i + 1;
      } else if level[i] == Tok(op) {
        var prev := if i == 0 then level[|level| - 1] else level[i - 1];
        if i > 0 {
          BackTruthy(op, expression, i - 1);
        }
        if !Truthy(prev) {
          return Err(Diverges), level;
        }
        if i + 1 >= |level| {
          return Err(IndexError), level;
        }
        if !Truthy(level[i + 1]) {
          return Err(Diverges), level;
        }
        if output == [] {
          return Err(IndexError), level;
        }
        var left := output[|output| - 1];
        output := output[..|output| - 1];
        var right, back := BinDescend(op, expression, i + 1);
        if right.Err? {
          return Err(right.error), level;
        }
        BinBackOperator(op, expression, i);
        AgreesStep(level, BinBack(op, expression), i);
        AgreesSet(level, BinBack(op, expression), i + 1, back);
        level := level[i + 1 := back];
        output := output + [Grp([Tok(op), left, right.value])];
        i := i + 2;
      } else {
        BinBackOther(op, expression, i);
        AgreesStep(level, BinBack(op, expression), i);
        output := output + [level[i]];
        i := i + 1;
      }
    }
    return Ok(output), level;
  }

  /** `account_AND(expression)`. */
  method AccountAnd(expression: seq<Elem>) returns (r: Result<seq<Elem>>, after: seq<Elem>)
    ensures r == BinaryPass("AND", expression)
    ensures r.Ok? ==> after == BinBack("AND", expression)
  {
    r, after := AccountBinary("AND", expression);
  }

  /** `account_OR(expression)`. */
  method AccountOr(expression: seq<Elem>) returns (r: Result<seq<Elem>>, after: seq<Elem>)
    ensures r == BinaryPass("OR", expression)
    ensures r.Ok? ==> after == BinBack("OR", expression)
  {
    r, after := AccountBinary("OR", expression);
  }

  /** Writing back keeps every position as truthy as it was. */
  lemma {:induction false} BackTruthy(op: string, xs: seq<Elem>, j: nat)
    requires j < |xs|
    ensures Truthy(BinBack(op, xs)[j]) == Truthy(xs[j])
  {
    if xs[0] == Tok(op) && |xs| > 1 {
      if j >= 2 {
        BackTruthy(op, xs[2..], j - 2);
      }
    } else if xs[0] != Tok(op) {
      if j >= 1 {
        BackTruthy(op, xs[1..], j - 1);
      } else if xs[0].Grp? {
        PassTruthy(op, xs[0].items);
      }
    }
  }

  /** `if isinstance(x, list): x = account_AND(x)` (or `account_OR`) on the
      element in position `k`: a list is passed through, and the list object
      itself is left as the recursive call leaves it (`back`); a token is
      taken as it is. */
  method BinDescend(op: string, expression: seq<Elem>, k: nat) returns (r: Result<Elem>, back: Elem)
    requires k < |expression|
    ensures expression[k].Tok? ==> r == Ok(expression[k]) && back == expression[k]
    ensures expression[k].Grp? ==> r == Lift(BinaryPass(op, expression[k].items))
    ensures expression[k].Grp? && r.Ok? ==> back == Grp(BinBack(op, expression[k].items))
    decreases expression, 0
  {
    var operand := expression[k];
    if operand.Tok? {
      return Ok(operand), operand;
    }
    var sub, subAfter := AccountBinary(op, operand.items);
    if sub.Err? {
      return Err(sub.error), operand;
    }
    return Ok(Grp(sub.value)), Grp(subAfter);
  }

  /** At an `op` the loop reaches, the written-back argument holds the token
      and the right operand updated within. */
  lemma BinBackOperator(op: string, xs: seq<Elem>, i: nat)
    requires i + 1 < |xs| && xs[i] == Tok(op) && BinBack(op, xs)[i..] == BinBack(op, xs[i..])
    ensures BinBack(op, xs)[i] == xs[i]
    ensures BinBack(op, xs)[i + 1] == if xs[i + 1].Grp? then Grp(BinBack(op, xs[i + 1].items)) else xs[i + 1]
    ensures BinBack(op, xs)[i + 2..] == BinBack(op, xs[i + 2..])
  {
    var rest := xs[i..];
    assert rest[0] == xs[i] && rest[1] == xs[i + 1] && rest[2..] == xs[i + 2..];
    assert BinBack(op, xs)[i + 2..] == BinBack(op, rest)[2..];
  }

  /** At any other element the loop reaches, the written-back argument holds
      the element, or the list the pass made of it. */
  lemma BinBackOther(op: string, xs: seq<Elem>, i: nat)
    requires i < |xs| && xs[i] != Tok(op) && BinBack(op, xs)[i..] == BinBack(op, xs[i..])
    ensures BinBack(op, xs)[i] == if xs[i].Grp? && BinaryPass(op, xs[i].items).Ok? then Grp(BinaryPass(op, xs[i].items).value) else xs[i]
    ensures BinBack(op, xs)[i + 1..] == BinBack(op, xs[i + 1..])
  {
    var rest := xs[i..];
    assert rest[0] == xs[i] && rest[1..] == xs[i + 1..];
    assert BinBack(op, xs)[i + 1..] == BinBack(op, rest)[1..];
  }

  /** The pass maps a non-empty list to a non-empty one, and `[]` to `[]`. */
  lemma {:induction false} PassTruthy(op: string, xs: seq<Elem>)
    ensures BinaryPass(op, xs).Ok? ==> (BinaryPass(op, xs).value == [] <==> xs == [])
  {
    LoopNonEmpty(op, xs, 0, []);
  }

  lemma {:induction false} LoopNonEmpty(op: string, xs: seq<Elem>, i: nat, out: seq<Elem>)
    requires out != [] || i < |xs| || xs == []
    ensures BinLoop(op, xs, i, out).Ok? ==> (BinLoop(op, xs, i, out).value == [] <==> out == [] && xs == [])
    decreases |xs| - i
  {
    if i < |xs| {
      if xs[i] == Tok(op) {
        var prev := if i == 0 then xs[|xs| - 1] else xs[i - 1];
        if Truthy(prev) && i + 1 < |xs| && Truthy(xs[i + 1]) && out != [] {
          match xs[i + 1]
          case Tok(_) =>
            LoopNonEmpty(op, xs, i + 2, out[..|out| - 1] + [Grp([Tok(op), out[|out| - 1], xs[i + 1]])]);
          case Grp(ys) =>
            if BinaryPass(op, ys).Ok? {
              LoopNonEmpty(op, xs, i + 2, out[..|out| - 1] + [Grp([Tok(op), out[|out| - 1], Grp(BinaryPass(op, ys).value)])]);
            }
        }
      } else {
        match xs[i]
        case Tok(_) =>
          LoopNonEmpty(op, xs, i + 1, out + [xs[i]]);
        case Grp(ys) =>
          if BinaryPass(op, ys).Ok? {
            LoopNonEmpty(op, xs, i + 1, out + [Grp(BinaryPass(op, ys).value)]);
          }
      }
    }
  }

  /** Elements free of `op` are copied to the output one by one, unchanged. */
  lemma {:induction false} BinSkip(op: string, xs: seq<Elem>, i: nat, j: nat, out: seq<Elem>)
    requires i <= j <= |xs|
    requires forall k :: i <= k < j ==> xs[k] != Tok(op) && (xs[k].Grp? ==> Free(op, xs[k].items))
    ensures BinLoop(op, xs, i, out) == BinLoop(op, xs, j, out + xs[i..j])
    decreases xs, 0, j - i
  {
    if i == j {
      assert out + xs[i..j] == out;
    } else {
      if xs[i].Grp? {
        BinaryCopies(op, xs[i].items);
      }
      assert BinLoop(op, xs, i, out) == BinLoop(op, xs, i + 1, out + [xs[i]]);
      BinSkip(op, xs, i + 1, j, out + [xs[i]]);
      assert out + [xs[i]] + xs[i + 1..j] == out + xs[i..j];
    }
  }

  /** A level with no `op` anywhere is returned unchanged. */
  lemma {:induction false} BinaryCopies(op: string, xs: seq<Elem>)
    requires Free(op, xs)
    ensures BinaryPass(op, xs) == Ok(xs)
    decreases xs, 1
  {
    BinSkip(op, xs, 0, |xs|, []);
    assert [] + xs[0..|xs|] == xs;
  }

  /** With no `op` anywhere, the pass writes back exactly what was there. */
  lemma {:induction false} BinBackCopies(op: string, xs: seq<Elem>)
    requires Free(op, xs)
    ensures BinBack(op, xs) == xs
  {
    if xs != [] {
      assert Free(op, xs[1..]) by {
        forall k | 0 <= k < |xs[1..]| ensures xs[1..][k] != Tok(op) && (xs[1..][k].Grp? ==> Free(op, xs[1..][k].items)) {
          assert xs[1..][k] == xs[k + 1];
        }
      }
      BinBackCopies(op, xs[1..]);
      if xs[0].Grp? {
        BinaryCopies(op, xs[0].items);
      }
      assert [xs[0]] + xs[1..] == xs;
    }
  }

  /** The level `x0 op x1 op ... op xn` of a run of operands. */
  function Chain(op: string, atoms: seq<Elem>): (xs: seq<Elem>)
    requires atoms != []
    ensures |xs| == 2 * |atoms| - 1
  {
    if |atoms| == 1 then atoms
    else Chain(op, atoms[..|atoms| - 1]) + [Tok(op), atoms[|atoms| - 1]]
  }

  /** Operands sit at even positions of the chain, `op` between them. */
  lemma {:induction false} ChainAt(op: string, atoms: seq<Elem>, j: nat)
    requires j < |atoms|
    ensures Chain(op, atoms)[2 * j] == atoms[j]
    ensures j + 1 < |atoms| ==> Chain(op, atoms)[2 * j + 1] == Tok(op)
  {
    if |atoms| > 1 {
      var init := atoms[..|atoms| - 1];
      var xs := Chain(op, atoms);
      assert xs == Chain(op, init) + [Tok(op), atoms[|atoms| - 1]];
      if j < |init| {
        ChainAt(op, init, j);
        assert init[j] == atoms[j];
        assert xs[2 * j] == Chain(op, init)[2 * j];
        if j + 1 < |init| {
          assert xs[2 * j + 1] == Chain(op, init)[2 * j + 1];
        }
      }
    }
  }

  /** Operands the pass keeps as they are: non-empty and free of `op`. */
  predicate Operands(op: string, atoms: seq<Elem>) {
    forall k :: 0 <= k < |atoms| ==> Truthy(atoms[k]) && atoms[k] != Tok(op) && (atoms[k].Grp? ==> Free(op, atoms[k].items))
  }

  /** The left-nested tree `[op, [op, x0, x1], x2]...` of a run of operands. */
  function FoldLeft(op: string, atoms: seq<Elem>): Elem
    requires atoms != []
  {
    if |atoms| == 1 then atoms[0]
    else Grp([Tok(op), FoldLeft(op, atoms[..|atoms| - 1]), atoms[|atoms| - 1]])
  }

  /** One fold: an `op` between two kept operands replaces the output's last
      element `left` by `[op, left, right]`, whatever was output before it. */
  lemma {:induction false} FoldStep(op: string, xs: seq<Elem>, i: nat, out: seq<Elem>, left: Elem)
    requires 0 < i && i + 1 < |xs| && xs[i] == Tok(op) && Truthy(xs[i - 1])
    requires Truthy(xs[i + 1]) && xs[i + 1] != Tok(op) && (xs[i + 1].Grp? ==> Free(op, xs[i + 1].items))
    ensures BinLoop(op, xs, i, out + [left]) == BinLoop(op, xs, i + 2, out + [Grp([Tok(op), left, xs[i + 1]])])
  {
    var right := xs[i + 1];
    if right.Grp? {
      BinaryCopies(op, right.items);
      assert Grp(BinaryPass(op, right.items).value) == right;
    }
    var before := out + [left];
    assert before[..|before| - 1] == out && before[|before| - 1] == left;
  }

  /** A run `x0 op x1 op ... op xn` folds left-associatively into one node:
      each fold pops the previous output as its left operand. */
  lemma {:induction false} FoldChain(op: string, atoms: seq<Elem>)
    requires atoms != [] && Operands(op, atoms)
    ensures BinaryPass(op, Chain(op, atoms)) == Ok([FoldLeft(op, atoms)])
  {
    var xs := Chain(op, atoms);
    ChainAt(op, atoms, 0);
    if atoms[0].Grp? {
      BinaryCopies(op, atoms[0].items);
      assert Grp(BinaryPass(op, atoms[0].items).value) == atoms[0];
    }
    assert [] + [atoms[0]] == [atoms[0]];
    assert BinLoop(op, xs, 0, []) == BinLoop(op, xs, 1, [atoms[0]]);
    assert atoms[..1] == [atoms[0]];
    assert FoldLeft(op, atoms[..1]) == atoms[0];
    var k, i := 1, 1;
    while k < |atoms|
      invariant 1 <= k <= |atoms| && i == 2 * k - 1
      invariant BinaryPass(op, xs) == BinLoop(op, xs, i, [FoldLeft(op, atoms[..k])])
    {
      FoldAdvance(op, atoms, k, i);
      k, i := k + 1, i + 2;
    }
    assert atoms[..k] == atoms && i == |xs|;
  }

  /** Reading `op x` after k operands folds the (k+1)-th into the output. */
  lemma {:induction false} FoldAdvance(op: string, atoms: seq<Elem>, k: nat, i: nat)
    requires Operands(op, atoms) && 1 <= k < |atoms| && i == 2 * k - 1
    ensures BinLoop(op, Chain(op, atoms), i, [FoldLeft(op, atoms[..k])])
            == BinLoop(op, Chain(op, atoms), i + 2, [FoldLeft(op, atoms[..k + 1])])
  {
    var xs := Chain(op, atoms);
    ChainAt(op, atoms, k - 1);
    ChainAt(op, atoms, k);
    assert 2 * (k - 1) == i - 1 && 2 * (k - 1) + 1 == i && 2 * k == i + 1;
    FoldLeftSnoc(op, atoms, k);
    FoldStep(op, xs, i, [], FoldLeft(op, atoms[..k]));
    assert [] + [FoldLeft(op, atoms[..k])] == [FoldLeft(op, atoms[..k])];
    assert [] + [FoldLeft(op, atoms[..k + 1])] == [FoldLeft(op, atoms[..k + 1])];
  }

  lemma {:induction false} FoldLeftSnoc(op: string, atoms: seq<Elem>, k: nat)
    requires 1 <= k < |atoms|
    ensures FoldLeft(op, atoms[..k + 1]) == Grp([Tok(op), FoldLeft(op, atoms[..k]), atoms[k]])
  {
    var upto := atoms[..k + 1];
    assert upto[..|upto| - 1] == atoms[..k] && upto[|upto| - 1] == atoms[k];
  }

  /** An operator in first position reads the last element, then the next
      one, then pops from the empty output. */
  lemma LeadingOperator(op: string, xs: seq<Elem>)
    requires xs != [] && xs[0] == Tok(op)
    ensures BinaryPass(op, xs).Err?
    ensures BinaryPass(op, xs).error ==
              if !Truthy(xs[|xs| - 1]) then Diverges
              else if |xs| == 1 then IndexError
              else if !Truthy(xs[1]) then Diverges
              else IndexError
  {
  }

  /** The first operator after a run of `op`-free elements: an empty
      neighbour never lets the loop advance, a missing right operand fails. */
  lemma {:induction false} FirstOperator(op: string, pre: seq<Elem>, post: seq<Elem>)
    requires pre != [] && Free(op, pre)
    ensures var r := BinaryPass(op, pre + [Tok(op)] + post);
      && (!Truthy(pre[|pre| - 1]) ==> r == Err(Diverges))
      && (Truthy(pre[|pre| - 1]) && post == [] ==> r == Err(IndexError))
      && (Truthy(pre[|pre| - 1]) && post != [] && !Truthy(post[0]) ==> r == Err(Diverges))
  {
    var xs := pre + [Tok(op)] + post;
    var n := |pre|;
    assert xs[..n] == pre;
    BinSkip(op, xs, 0, n, []);
    assert xs[n] == Tok(op) && xs[n - 1] == pre[n - 1];
    if post != [] {
      assert xs[n + 1] == post[0];
    }
  }
}
