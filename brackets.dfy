/** `account_brackets` (Main.py:11-22): a stack of open lists; `(` pushes a
    new list, `)` pops the innermost one and appends it to the list below,
    any other token is appended to the innermost list; the bottom list is
    the result. */
module Brackets {
  import opened Nested

  /** `stack[-1].extend(ys)`: append to the innermost open list. */
  function Push(stack: seq<seq<Elem>>, ys: seq<Elem>): (r: seq<seq<Elem>>)
    requires stack != []
    ensures |r| == |stack|
  {
    stack[..|stack| - 1] + [stack[|stack| - 1] + ys]
  }

  /** One token's effect on the stack of open lists (a `)` needs a list
      below the one it closes). */
  function Step(stack: seq<seq<Elem>>, t: string): (r: seq<seq<Elem>>)
    requires stack != [] && (t == ")" ==> |stack| > 1)
    ensures |r| == |stack| + (if t == "(" then 1 else if t == ")" then -1 else 0)
  {
    if t == "(" then stack + [[]]
    else if t == ")" then Push(stack[..|stack| - 1], [Grp(stack[|stack| - 1])])
    else Push(stack, [Tok(t)])
  }

  /** The stack after the loop of Main.py:14-21 has read `ts`; a `)` that
      pops the bottom list makes `stack[-1]` fail. */
  function Run(ts: seq<string>, stack: seq<seq<Elem>>): (r: Result<seq<seq<Elem>>>)
    requires stack != []
    ensures r.Ok? ==> r.value != []
  {
    if ts == [] then Ok(stack)
    else if ts[0] == ")" && |stack| == 1 then Err(IndexError)
    else Run(ts[1..], Step(stack, ts[0]))
  }

  /** `account_brackets(tokens)`: the bottom list of the final stack. */
  function Group(tokens: seq<string>): Result<seq<Elem>> {
    match Run(tokens, [[]])
    case Err(e) => Err(e)
    case Ok(stack) => Ok(stack[0])
  }

  /** `account_brackets(input)`. */
  method AccountBrackets(input: seq<string>) returns (r: Result<seq<Elem>>)
    ensures r == Group(input)
  {
    var stack: seq<seq<Elem>> := [[]];
    for i := 0 to |input|
      invariant stack != []
      invariant Run(input, [[]]) == Run(input[i..], stack)
    {
      var t := input[i];
      assert input[i..][1..] == input[i + 1..];
      if t == "(" {
        stack := stack + [[]];
      } else if t == ")" {
        var group := stack[|stack| - 1];
        stack := stack[..|stack| - 1];
        if stack == [] {
          return Err(IndexError);
        }
        stack := Push(stack, [Grp(group)]);
      } else {
        stack := Push(stack, [Tok(t)]);
      }
    }
    assert input[|input|..] == [];
    return Ok(stack[0]);
  }

  // ----- Parenthesis depth -----

  /** Depth after reading `ts` from depth `d`: opens minus closes. */
  function Depth(ts: seq<string>, d: int): int {
    if ts == [] then d
    else Depth(ts[1..], if ts[0] == "(" then d + 1 else if ts[0] == ")" then d - 1 else d)
  }

  /** Starting at depth `d`, no `)` closes more than was open. */
  predicate Closable(ts: seq<string>, d: int) {
    ts == []
    || (if ts[0] == "(" then Closable(ts[1..], d + 1)
        else if ts[0] == ")" then d > 0 && Closable(ts[1..], d - 1)
        else Closable(ts[1..], d))
  }

  // ----- Flattening a nested value back to tokens -----

  /** The tokens a list of values came from: each sub-list re-wrapped in
      `(` ... `)`. */
  function Unparse(xs: seq<Elem>): seq<string> {
    if xs == [] then []
    else
      Unparse(xs[..|xs| - 1])
      + (match xs[|xs| - 1] { case Tok(s) => [s] case Grp(ys) => ["("] + Unparse(ys) + [")"] })
  }

  /** No `(` or `)` string anywhere in the nested value. */
  predicate NoParens(xs: seq<Elem>) {
    xs == []
    || (NoParens(xs[..|xs| - 1])
        && match xs[|xs| - 1] { case Tok(s) => s != "(" && s != ")" case Grp(ys) => NoParens(ys) })
  }

  predicate AllNoParens(stack: seq<seq<Elem>>) {
    forall j :: 0 <= j < |stack| ==> NoParens(stack[j])
  }

  /** The tokens read so far, as recorded by a stack of open lists. */
  function Text(stack: seq<seq<Elem>>): seq<string>
    requires stack != []
  {
    if |stack| == 1 then Unparse(stack[0])
    else Text(stack[..|stack| - 1]) + ["("] + Unparse(stack[|stack| - 1])
  }

  lemma {:induction false} UnparseOne(xs: seq<Elem>, e: Elem)
    ensures Unparse(xs + [e]) == Unparse(xs) + Unparse([e])
    ensures Unparse([e]) == match e { case Tok(s) => [s] case Grp(ys) => ["("] + Unparse(ys) + [")"] }
    ensures NoParens(xs) && NoParens([e]) ==> NoParens(xs + [e])
    ensures NoParens([e]) == match e { case Tok(s) => s != "(" && s != ")" case Grp(ys) => NoParens(ys) }
  {
    assert (xs + [e])[..|xs|] == xs;
    assert [e][..0] == [];
  }

  /** Appending a value to the innermost list extends the recorded text and
      keeps parenthesis tokens out of the lists. */
  lemma {:induction false} PushOne(stack: seq<seq<Elem>>, e: Elem)
    requires stack != []
    ensures Text(Push(stack, [e])) == Text(stack) + Unparse([e])
  {
    var n := |stack|;
    var next := Push(stack, [e]);
    UnparseOne(stack[n - 1], e);
    assert next[..n - 1] == stack[..n - 1];
    assert next[n - 1] == stack[n - 1] + [e];
  }

  /** Appending a value without parenthesis tokens keeps them out of the
      lists. */
  lemma {:induction false} PushOneParens(stack: seq<seq<Elem>>, e: Elem)
    requires stack != [] && AllNoParens(stack) && NoParens([e])
    ensures AllNoParens(Push(stack, [e]))
  {
    var n := |stack|;
    var next := Push(stack, [e]);
    UnparseOne(stack[n - 1], e);
    forall j | 0 <= j < n ensures NoParens(next[j]) {
      if j < n - 1 {
        assert next[j] == stack[..n - 1][j];
      }
    }
  }

  lemma {:induction false} StepOpen(stack: seq<seq<Elem>>)
    requires stack != [] && AllNoParens(stack)
    ensures Text(Step(stack, "(")) == Text(stack) + ["("]
    ensures AllNoParens(Step(stack, "("))
  {
    var next := stack + [[]];
    assert next[..|stack|] == stack;
    assert Unparse([]) == [];
    forall j | 0 <= j < |next| ensures NoParens(next[j]) {
      if j < |stack| { assert next[j] == stack[j]; }
    }
  }

  lemma {:induction false} StepClose(stack: seq<seq<Elem>>)
    requires |stack| > 1 && AllNoParens(stack)
    ensures Text(Step(stack, ")")) == Text(stack) + [")"]
    ensures AllNoParens(Step(stack, ")"))
  {
    var n := |stack|;
    var init := stack[..n - 1];
    assert AllNoParens(init) by {
      forall j | 0 <= j < |init| ensures NoParens(init[j]) {
        assert init[j] == stack[j];
      }
    }
    assert init + [stack[n - 1]] == stack;
    CloseText(init, stack[n - 1]);
  }

  lemma {:induction false} CloseText(init: seq<seq<Elem>>, ys: seq<Elem>)
    requires init != [] && AllNoParens(init) && NoParens(ys)
    ensures Text(Push(init, [Grp(ys)])) == Text(init + [ys]) + [")"]
    ensures AllNoParens(Push(init, [Grp(ys)]))
  {
    var g := Grp(ys);
    UnparseOne([], g);
    PushOneParens(init, g);
    CloseTextOnly(init, ys);
  }

  lemma {:induction false} CloseTextOnly(init: seq<seq<Elem>>, ys: seq<Elem>)
    requires init != []
    ensures Text(Push(init, [Grp(ys)])) == Text(init + [ys]) + [")"]
  {
    var whole := init + [ys];
    assert whole[..|whole| - 1] == init;
    assert whole[|whole| - 1] == ys;
    UnparseOne([], Grp(ys));
    PushOne(init, Grp(ys));
    Bracketed(Text(init), Unparse(ys), Text(Push(init, [Grp(ys)])), Text(whole));
  }

  lemma Bracketed(t: seq<string>, u: seq<string>, closed: seq<string>, open: seq<string>)
    requires closed == t + (["("] + u + [")"]) && open == t + ["("] + u
    ensures closed == open + [")"]
  {
  }

  lemma {:induction false} StepOther(stack: seq<seq<Elem>>, t: string)
    requires stack != [] && t != "(" && t != ")" && AllNoParens(stack)
    ensures Text(Step(stack, t)) == Text(stack) + [t]
    ensures AllNoParens(Step(stack, t))
  {
    UnparseOne([], Tok(t));
    PushOne(stack, Tok(t));
    PushOneParens(stack, Tok(t));
  }

  /** A step records its token and keeps parenthesis tokens out of the lists. */
  lemma {:induction false} StepText(stack: seq<seq<Elem>>, t: string)
    requires stack != [] && (t == ")" ==> |stack| > 1) && AllNoParens(stack)
    ensures Text(Step(stack, t)) == Text(stack) + [t]
    ensures AllNoParens(Step(stack, t))
  {
    if t == "(" {
      StepOpen(stack);
    } else if t == ")" {
      StepClose(stack);
    } else {
      StepOther(stack, t);
    }
  }

  /** The bottom list's text starts the recorded text, followed by `(` when
      a list is still open. */
  lemma {:induction false} TextStartsWithBottom(stack: seq<seq<Elem>>)
    requires stack != []
    ensures Unparse(stack[0]) <= Text(stack)
    ensures |stack| > 1 ==> |Unparse(stack[0])| < |Text(stack)| && Text(stack)[|Unparse(stack[0])|] == "("
  {
    if |stack| > 1 {
      var init := stack[..|stack| - 1];
      TextStartsWithBottom(init);
      assert init[0] == stack[0];
      if |init| == 1 {
        assert Text(init) == Unparse(stack[0]);
      }
    }
  }

  // ----- How deep each prefix goes -----

  lemma {:induction false} DepthShift(ts: seq<string>, d: int)
    ensures Depth(ts, d) == Depth(ts, 0) + d
  {
    if ts != [] {
      var e := if ts[0] == "(" then 1 else if ts[0] == ")" then -1 else 0;
      DepthShift(ts[1..], d + e);
      DepthShift(ts[1..], e);
    }
  }

  lemma {:induction false} DepthAppend(a: seq<string>, b: seq<string>)
    ensures Depth(a + b, 0) == Depth(a, 0) + Depth(b, 0)
  {
    DepthAppendFrom(a, b, 0);
    DepthShift(b, Depth(a, 0));
  }

  lemma {:induction false} DepthAppendFrom(a: seq<string>, b: seq<string>, d: int)
    ensures Depth(a + b, d) == Depth(b, Depth(a, d))
  {
    if a == [] {
      assert a + b == b;
    } else {
      assert (a + b)[0] == a[0] && (a + b)[1..] == a[1..] + b;
      DepthAppendFrom(a[1..], b, if a[0] == "(" then d + 1 else if a[0] == ")" then d - 1 else d);
    }
  }

  /** No prefix closes more than it opens. */
  predicate NonNeg(ts: seq<string>) {
    forall k :: 0 <= k <= |ts| ==> Depth(ts[..k], 0) >= 0
  }

  /** Every non-empty prefix leaves a `(` open. */
  predicate Pos(ts: seq<string>) {
    forall k :: 0 < k <= |ts| ==> Depth(ts[..k], 0) > 0
  }

  lemma ConcatNonNeg(a: seq<string>, b: seq<string>)
    requires NonNeg(a) && Depth(a, 0) == 0 && NonNeg(b)
    ensures NonNeg(a + b) && Depth(a + b, 0) == Depth(b, 0)
  {
    DepthAppend(a, b);
    forall k | 0 <= k <= |a + b| ensures Depth((a + b)[..k], 0) >= 0 {
      if k <= |a| {
        assert (a + b)[..k] == a[..k];
      } else {
        assert (a + b)[..k] == a + b[..k - |a|];
        DepthAppend(a, b[..k - |a|]);
      }
    }
  }

  lemma ConcatPos(a: seq<string>, b: seq<string>)
    requires Pos(a) && Pos(b)
    ensures Pos(a + b)
  {
    if a != [] {
      assert a[..|a|] == a;
    }
    forall k | 0 < k <= |a + b| ensures Depth((a + b)[..k], 0) > 0 {
      if k <= |a| {
        assert (a + b)[..k] == a[..k];
      } else {
        assert (a + b)[..k] == a + b[..k - |a|];
        DepthAppend(a, b[..k - |a|]);
      }
    }
  }

  /** A `(` followed by a text that never goes below its start stays open. */
  lemma OpenPos(u: seq<string>)
    requires NonNeg(u)
    ensures Pos(["("] + u) && Depth(["("] + u, 0) == Depth(u, 0) + 1
  {
    var w := ["("] + u;
    forall k | 0 < k <= |w| ensures Depth(w[..k], 0) > 0 {
      assert w[..k] == ["("] + u[..k - 1];
      assert (["("] + u[..k - 1])[1..] == u[..k - 1];
      DepthShift(u[..k - 1], 1);
    }
    assert w[1..] == u;
    DepthShift(u, 1);
  }

  lemma WrapBalanced(u: seq<string>)
    requires NonNeg(u) && Depth(u, 0) == 0
    ensures NonNeg(["("] + u + [")"]) && Depth(["("] + u + [")"], 0) == 0
  {
    var w := ["("] + u;
    OpenPos(u);
    DepthAppend(w, [")"]);
    assert Depth([")"], 0) == -1 by {
      assert [")"][1..] == [];
    }
    forall k | 0 <= k <= |w + [")"]| ensures Depth((w + [")"])[..k], 0) >= 0 {
      if k <= |w| {
        assert (w + [")"])[..k] == w[..k];
      } else {
        assert (w + [")"])[..k] == w + [")"];
      }
    }
  }

  /** The flattening of a value without parenthesis tokens is balanced. */
  lemma {:induction false} UnparseBalanced(xs: seq<Elem>)
    requires NoParens(xs)
    ensures NonNeg(Unparse(xs)) && Depth(Unparse(xs), 0) == 0
    decreases xs
  {
    if xs == [] {
      assert Unparse(xs)[..0] == [];
    } else {
      var init, last := xs[..|xs| - 1], xs[|xs| - 1];
      UnparseBalanced(init);
      match last
      case Tok(t) =>
        assert Depth([t], 0) == 0 by {
          assert [t][1..] == [];
        }
        assert NonNeg([t]) by {
          forall k | 0 <= k <= 1 ensures Depth([t][..k], 0) >= 0 {
            if k == 1 {
              assert [t][..k] == [t];
            }
          }
        }
        ConcatNonNeg(Unparse(init), [t]);
      case Grp(ys) =>
        UnparseBalanced(ys);
        WrapBalanced(Unparse(ys));
        ConcatNonNeg(Unparse(init), ["("] + Unparse(ys) + [")"]);
    }
  }

  /** After the bottom list's text, every prefix of the recorded text
      leaves a `(` open: the lists above the bottom one are never closed. */
  lemma {:induction false} TextSuffixOpen(stack: seq<seq<Elem>>)
    requires stack != [] && AllNoParens(stack)
    ensures Unparse(stack[0]) <= Text(stack)
    ensures Pos(Text(stack)[|Unparse(stack[0])|..])
    decreases |stack|
  {
    TextStartsWithBottom(stack);
    var p := |Unparse(stack[0])|;
    if |stack| == 1 {
      assert Text(stack)[p..] == [];
    } else {
      var init, last := stack[..|stack| - 1], stack[|stack| - 1];
      assert AllNoParens(init) by {
        forall j | 0 <= j < |init| ensures NoParens(init[j]) {
          assert init[j] == stack[j];
        }
      }
      assert init[0] == stack[0];
      TextSuffixOpen(init);
      var t := Text(init);
      var block := ["("] + Unparse(last);
      assert Text(stack) == t + block;
      assert Text(stack)[p..] == t[p..] + block;
      UnparseBalanced(last);
      OpenPos(Unparse(last));
      ConcatPos(t[p..], block);
    }
  }

  /** The loop fails exactly when a `)` closes nothing, counting the lists
      already open. */
  lemma {:induction false} RunFails(ts: seq<string>, stack: seq<seq<Elem>>)
    requires stack != []
    ensures Run(ts, stack).Err? <==> !Closable(ts, |stack| - 1)
    ensures Run(ts, stack).Err? ==> Run(ts, stack) == Err(IndexError)
  {
    if ts != [] && !(ts[0] == ")" && |stack| == 1) {
      RunFails(ts[1..], Step(stack, ts[0]));
    }
  }

  /** A stack the loop ends with records everything it read, holds no
      parenthesis token, and has one open list per unclosed `(`. */
  lemma {:induction false} RunSucceeds(ts: seq<string>, stack: seq<seq<Elem>>)
    requires stack != [] && AllNoParens(stack)
    ensures Run(ts, stack).Ok? ==>
              var fin := Run(ts, stack).value;
              Text(fin) == Text(stack) + ts && AllNoParens(fin) && |fin| - 1 == Depth(ts, |stack| - 1)
  {
    if ts == [] {
      assert Text(stack) + ts == Text(stack);
    } else if !(ts[0] == ")" && |stack| == 1) {
      var next := Step(stack, ts[0]);
      assert Run(ts, stack) == Run(ts[1..], next);
      assert Depth(ts, |stack| - 1) == Depth(ts[1..], |next| - 1);
      StepText(stack, ts[0]);
      RunSucceeds(ts[1..], next);
      if Run(ts, stack).Ok? {
        Consumed(Text(stack), ts, Text(next), Text(Run(ts, stack).value));
      }
    }
  }

  lemma Consumed(a: seq<string>, ts: seq<string>, b: seq<string>, c: seq<string>)
    requires ts != [] && b == a + [ts[0]] && c == b + ts[1..]
    ensures c == a + ts
  {
    assert ts == [ts[0]] + ts[1..];
  }

  /** Grouping fails exactly on a `)` that closes nothing; otherwise the
      result holds no parenthesis token and flattens to the input when every
      `(` is closed, or to a prefix that stops at an unclosed `(`, whose
      tokens are dropped. */
  lemma {:induction false} GroupFacts(tokens: seq<string>)
    ensures Group(tokens).Err? <==> !Closable(tokens, 0)
    ensures Group(tokens).Err? ==> Group(tokens) == Err(IndexError)
    ensures Group(tokens).Ok? ==>
              var v := Group(tokens).value;
              NoParens(v) && Unparse(v) <= tokens
              && (Depth(tokens, 0) == 0 ==> Unparse(v) == tokens)
              && (Depth(tokens, 0) > 0 ==> |Unparse(v)| < |tokens| && tokens[|Unparse(v)|] == "(")
    ensures Group(tokens).Ok? ==>
              var p := |Unparse(Group(tokens).value)|;
              forall k :: p < k <= |tokens| ==> Depth(tokens[p..k], 0) > 0
  {
    var start: seq<seq<Elem>> := [[]];
    assert Unparse([]) == [];
    assert AllNoParens(start) by {
      assert NoParens(start[0]);
    }
    assert Text(start) == [];
    RunFails(tokens, start);
    RunSucceeds(tokens, start);
    if Run(tokens, start).Ok? {
      var fin := Run(tokens, start).value;
      assert [] + tokens == tokens;
      TextStartsWithBottom(fin);
      assert NoParens(fin[0]);
      TextSuffixOpen(fin);
      var p := |Unparse(fin[0])|;
      forall k | p < k <= |tokens| ensures Depth(tokens[p..k], 0) > 0 {
        assert tokens[p..k] == tokens[p..][..k - p];
      }
    }
  }

  // ----- Reading back flattened tokens -----

  /** The loop over `a + b` is the loop over `a`, then over `b`. */
  lemma {:induction false} RunAppend(a: seq<string>, b: seq<string>, stack: seq<seq<Elem>>)
    requires stack != []
    ensures Run(a + b, stack) == match Run(a, stack) { case Err(e) => Err(e) case Ok(s) => Run(b, s) }
  {
    if a == [] {
      assert a + b == b;
    } else {
      assert (a + b)[0] == a[0];
      assert (a + b)[1..] == a[1..] + b;
      if !(a[0] == ")" && |stack| == 1) {
        RunAppend(a[1..], b, Step(stack, a[0]));
      }
    }
  }

  lemma {:induction false} PushLast(stack: seq<seq<Elem>>, xs: seq<Elem>)
    requires stack != [] && xs != []
    ensures Push(Push(stack, xs[..|xs| - 1]), [xs[|xs| - 1]]) == Push(stack, xs)
  {
    var top := stack[|stack| - 1];
    assert (top + xs[..|xs| - 1]) + [xs[|xs| - 1]] == top + xs;
  }

  lemma {:induction false} CloseAfterOpen(mid: seq<seq<Elem>>, ys: seq<Elem>)
    requires mid != []
    ensures Step(Push(mid + [[]], ys), ")") == Push(mid, [Grp(ys)])
  {
    var inner := Push(mid + [[]], ys);
    assert inner[..|inner| - 1] == mid;
    assert inner[|inner| - 1] == [] + ys;
    assert [] + ys == ys;
  }

  /** Reading the tokens of a nested value appends that value to the
      innermost open list. */
  lemma {:induction false} RunUnparse(xs: seq<Elem>, stack: seq<seq<Elem>>)
    requires stack != [] && NoParens(xs)
    ensures Run(Unparse(xs), stack) == Ok(Push(stack, xs))
    decreases |Unparse(xs)|, 2
  {
    if xs == [] {
      assert stack[|stack| - 1] + xs == stack[|stack| - 1];
      assert Push(stack, xs) == stack;
    } else {
      var init, last := xs[..|xs| - 1], xs[|xs| - 1];
      assert init + [last] == xs;
      UnparseOne(init, last);
      RunAppend(Unparse(init), Unparse([last]), stack);
      RunUnparse(init, stack);
      RunOne(last, Push(stack, init));
      PushLast(stack, xs);
    }
  }

  /** Reading the tokens of one value appends it to the innermost open list. */
  lemma {:induction false} RunOne(e: Elem, stack: seq<seq<Elem>>)
    requires stack != [] && NoParens([e])
    ensures Run(Unparse([e]), stack) == Ok(Push(stack, [e]))
    decreases |Unparse([e])|, 1
  {
    UnparseOne([], e);
    match e {
      case Tok(s) =>
        assert Unparse([e])[1..] == [];
      case Grp(ys) =>
        RunGroup(ys, stack);
    }
  }

  /** Reading `(`, the tokens of `ys`, then `)` appends the list `ys`. */
  lemma {:induction false} RunGroup(ys: seq<Elem>, stack: seq<seq<Elem>>)
    requires stack != [] && NoParens(ys)
    ensures Run(Unparse([Grp(ys)]), stack) == Ok(Push(stack, [Grp(ys)]))
    decreases |Unparse([Grp(ys)])|, 0
  {
    UnparseOne([], Grp(ys));
    var w := Unparse(ys);
    assert Unparse([Grp(ys)]) == ["("] + (w + [")"]);
    assert (["("] + (w + [")"]))[1..] == w + [")"];
    RunAppend(w, [")"], stack + [[]]);
    RunUnparse(ys, stack + [[]]);
    CloseAfterOpen(stack, ys);
    assert [")"][1..] == [];
  }

  /** Grouping undoes flattening: a nested value without parenthesis tokens
      is recovered from its tokens. */
  lemma {:induction false} GroupUnparse(xs: seq<Elem>)
    requires NoParens(xs)
    ensures Group(Unparse(xs)) == Ok(xs)
  {
    RunUnparse(xs, [[]]);
    assert [] + xs == xs;
    assert Push([[]], xs) == [xs];
  }

  /** Hence flattening loses nothing on such values. */
  lemma {:induction false} UnparseInjective(xs: seq<Elem>, ys: seq<Elem>)
    requires NoParens(xs) && NoParens(ys) && Unparse(xs) == Unparse(ys)
    ensures xs == ys
  {
    GroupUnparse(xs);
    GroupUnparse(ys);
  }
}
