/** The tokenizer `concat_expression` (Main.py:2-7): a chain of
    `str.replace` calls that isolate operators and parentheses, then
    `str.split()`. */
module Tokenizer {

  /** The characters Python's `str.split()` (no argument) splits on, that is
      those for which `str.isspace()` holds. */
  predicate IsSpace(c: char) {
    var n := c as int;
    (9 <= n <= 13) || (28 <= n <= 32) || n == 0x85 || n == 0xA0 || n == 0x1680
    || (0x2000 <= n <= 0x200A) || n == 0x2028 || n == 0x2029 || n == 0x202F
    || n == 0x205F || n == 0x3000
  }

  predicate NoSpace(t: string) {
    forall k :: 0 <= k < |t| ==> !IsSpace(t[k])
  }

  /** `s.replace(c, repl)` for a one-character pattern. */
  function Replace(s: string, c: char, repl: string): string {
    if s == [] then [] else (if s[0] == c then repl else [s[0]]) + Replace(s[1..], c, repl)
  }

  /** The six replacements of Main.py:3-6, in the source's order. */
  function Respace(expr: string): string {
    var noBlanks := Replace(expr, ' ', "");
    var ops := Replace(Replace(Replace(noBlanks, '~', " NOT "), '&', " AND "), '|', " OR ");
    Replace(Replace(ops, '(', " ( "), ')', " ) ")
  }

  /** Length of the run of non-space characters that starts `s`. */
  function RunLength(s: string): (n: nat)
    ensures n <= |s|
    ensures forall k :: 0 <= k < n ==> !IsSpace(s[k])
    ensures n < |s| ==> IsSpace(s[n])
  {
    if s == [] || IsSpace(s[0]) then 0 else 1 + RunLength(s[1..])
  }

  /** Python's `s.split()`: the maximal runs of non-space characters, in order. */
  function Split(s: string): seq<string>
    decreases |s|
  {
    if s == [] then []
    else if IsSpace(s[0]) then Split(s[1..])
    else
      var n := RunLength(s);
      [s[..n]] + Split(s[n..])
  }

  /** `concat_expression(expr)`: the replacement chain is the per-character
      expansion, then `split` cuts it into tokens. */
  function ConcatExpression(expr: string): (tokens: seq<string>)
    ensures tokens == Split(Expand(expr))
  {
    RespaceIsExpand(expr);
    Split(Respace(expr))
  }

  /** What a token can be: non-empty and without whitespace; never `~`, `&`
      or `|`; a parenthesis only alone. Joined back together, the tokens are
      the input with each operator spelled out and every space removed. */
  lemma ConcatTokens(expr: string)
    ensures var tokens := ConcatExpression(expr);
      && (forall t :: t in tokens ==> t != [] && NoSpace(t))
      && (forall t :: t in tokens ==> '~' !in t && '&' !in t && '|' !in t)
      && (forall t :: t in tokens ==> ('(' in t ==> t == "(") && (')' in t ==> t == ")"))
      && Concat(tokens) == NonSpace(Expand(expr))
  {
    ExpandFlanked(expr, '(');
    ExpandFlanked(expr, ')');
    FlankedIsolated(Expand(expr), '(');
    FlankedIsolated(Expand(expr), ')');
    SplitIsolated(Expand(expr), '(');
    SplitIsolated(Expand(expr), ')');
    SplitConcat(Expand(expr));
    SplitTokens(Expand(expr));
  }

  // ----- A per-character reference for the replacement chain -----

  /** What the replacement chain turns one input character into. */
  function ExpandChar(c: char): (r: string)
    ensures '~' !in r && '&' !in r && '|' !in r
  {
    match c
    case ' ' => ""
    case '~' => " NOT "
    case '&' => " AND "
    case '|' => " OR "
    case '(' => " ( "
    case ')' => " ) "
    case _ => [c]
  }

  function Expand(s: string): (r: string)
    ensures '~' !in r && '&' !in r && '|' !in r
  {
    if s == [] then [] else ExpandChar(s[0]) + Expand(s[1..])
  }

  function Concat(ts: seq<string>): string {
    if ts == [] then [] else ts[0] + Concat(ts[1..])
  }

  /** `s` with every space character dropped. */
  function NonSpace(s: string): string {
    if s == [] then [] else (if IsSpace(s[0]) then [] else [s[0]]) + NonSpace(s[1..])
  }

  /** Every occurrence of `c` has a space on both sides. */
  predicate Flanked(s: string, c: char) {
    forall p :: 0 <= p < |s| && s[p] == c ==> 0 < p < |s| - 1 && IsSpace(s[p - 1]) && IsSpace(s[p + 1])
  }

  /** Every occurrence of `c` has a space or an end of the string on both sides. */
  predicate Isolated(s: string, c: char) {
    forall p :: 0 <= p < |s| && s[p] == c ==> (p == 0 || IsSpace(s[p - 1])) && (p == |s| - 1 || IsSpace(s[p + 1]))
  }

  lemma {:induction false} ReplaceAppend(a: string, b: string, c: char, repl: string)
    ensures Replace(a + b, c, repl) == Replace(a, c, repl) + Replace(b, c, repl)
  {
    if a != [] {
      assert (a + b)[1..] == a[1..] + b;
      ReplaceAppend(a[1..], b, c, repl);
    } else {
      assert a + b == b;
    }
  }

  lemma {:induction false} ReplaceAbsent(s: string, c: char, repl: string)
    requires c !in s
    ensures Replace(s, c, repl) == s
  {
    if s != [] {
      assert s == [s[0]] + s[1..];
      ReplaceAbsent(s[1..], c, repl);
    }
  }

  lemma ReplaceSingle(x: char, c: char, repl: string)
    ensures Replace([x], c, repl) == if x == c then repl else [x]
  {
    assert [x][1..] == [];
  }

  /** The chain on a one-character string is `ExpandChar`. */
  lemma RespaceChar(c: char)
    ensures Respace([c]) == ExpandChar(c)
  {
    match c
    case ' ' => RespaceBlank(c);
    case '~' => RespaceTilde(c);
    case '&' => RespaceAmpersand(c);
    case '|' => RespaceBar(c);
    case '(' => RespaceOpen(c);
    case ')' => RespaceClose(c);
    case _ =>
      ReplaceSingle(c, ' ', "");
      ReplaceSingle(c, '~', " NOT ");
      ReplaceSingle(c, '&', " AND ");
      ReplaceSingle(c, '|', " OR ");
      ReplaceSingle(c, '(', " ( ");
      ReplaceSingle(c, ')', " ) ");
  }

  lemma RespaceBlank(c: char)
    requires c == ' '
    ensures Respace([c]) == ExpandChar(c)
  {
    var s0 := Replace([c], ' ', "");
    ReplaceSingle(c, ' ', "");
    assert s0 == "";
    var s1 := Replace(s0, '~', " NOT ");
    ReplaceAbsent(s0, '~', " NOT ");
    assert s1 == "";
    var s2 := Replace(s1, '&', " AND ");
    ReplaceAbsent(s1, '&', " AND ");
    assert s2 == "";
    var s3 := Replace(s2, '|', " OR ");
    ReplaceAbsent(s2, '|', " OR ");
    assert s3 == "";
    var s4 := Replace(s3, '(', " ( ");
    ReplaceAbsent(s3, '(', " ( ");
    assert s4 == "";
    var s5 := Replace(s4, ')', " ) ");
    ReplaceAbsent(s4, ')', " ) ");
    assert s5 == "";
  }

  lemma RespaceTilde(c: char)
    requires c == '~'
    ensures Respace([c]) == ExpandChar(c)
  {
    NotWordKept();
    var s0 := Replace([c], ' ', "");
    ReplaceSingle(c, ' ', "");
    assert s0 == [c];
    var s1 := Replace(s0, '~', " NOT ");
    ReplaceSingle(c, '~', " NOT ");
    assert s1 == " NOT ";
    var s2 := Replace(s1, '&', " AND ");
    assert s2 == " NOT ";
    var s3 := Replace(s2, '|', " OR ");
    assert s3 == " NOT ";
    var s4 := Replace(s3, '(', " ( ");
    assert s4 == " NOT ";
    var s5 := Replace(s4, ')', " ) ");
    assert s5 == " NOT ";
  }

  lemma RespaceAmpersand(c: char)
    requires c == '&'
    ensures Respace([c]) == ExpandChar(c)
  {
    AndWordKept();
    var s0 := Replace([c], ' ', "");
    ReplaceSingle(c, ' ', "");
    assert s0 == [c];
    var s1 := Replace(s0, '~', " NOT ");
    ReplaceSingle(c, '~', " NOT ");
    assert s1 == [c];
    var s2 := Replace(s1, '&', " AND ");
    ReplaceSingle(c, '&', " AND ");
    assert s2 == " AND ";
    var s3 := Replace(s2, '|', " OR ");
    assert s3 == " AND ";
    var s4 := Replace(s3, '(', " ( ");
    assert s4 == " AND ";
    var s5 := Replace(s4, ')', " ) ");
    assert s5 == " AND ";
  }

  lemma RespaceBar(c: char)
    requires c == '|'
    ensures Respace([c]) == ExpandChar(c)
  {
    OrWordKept();
    var s0 := Replace([c], ' ', "");
    ReplaceSingle(c, ' ', "");
    assert s0 == [c];
    var s1 := Replace(s0, '~', " NOT ");
    ReplaceSingle(c, '~', " NOT ");
    assert s1 == [c];
    var s2 := Replace(s1, '&', " AND ");
    ReplaceSingle(c, '&', " AND ");
    assert s2 == [c];
    var s3 := Replace(s2, '|', " OR ");
    ReplaceSingle(c, '|', " OR ");
    assert s3 == " OR ";
    var s4 := Replace(s3, '(', " ( ");
    assert s4 == " OR ";
    var s5 := Replace(s4, ')', " ) ");
    assert s5 == " OR ";
  }

  lemma RespaceOpen(c: char)
    requires c == '('
    ensures Respace([c]) == ExpandChar(c)
  {
    OpenWordKept();
    var s0 := Replace([c], ' ', "");
    ReplaceSingle(c, ' ', "");
    assert s0 == [c];
    var s1 := Replace(s0, '~', " NOT ");
    ReplaceSingle(c, '~', " NOT ");
    assert s1 == [c];
    var s2 := Replace(s1, '&', " AND ");
    ReplaceSingle(c, '&', " AND ");
    assert s2 == [c];
    var s3 := Replace(s2, '|', " OR ");
    ReplaceSingle(c, '|', " OR ");
    assert s3 == [c];
    var s4 := Replace(s3, '(', " ( ");
    ReplaceSingle(c, '(', " ( ");
    assert s4 == " ( ";
    var s5 := Replace(s4, ')', " ) ");
    assert s5 == " ( ";
  }

  lemma RespaceClose(c: char)
    requires c == ')'
    ensures Respace([c]) == ExpandChar(c)
  {
    var s0 := Replace([c], ' ', "");
    ReplaceSingle(c, ' ', "");
    assert s0 == [c];
    var s1 := Replace(s0, '~', " NOT ");
    ReplaceSingle(c, '~', " NOT ");
    assert s1 == [c];
    var s2 := Replace(s1, '&', " AND ");
    ReplaceSingle(c, '&', " AND ");
    assert s2 == [c];
    var s3 := Replace(s2, '|', " OR ");
    ReplaceSingle(c, '|', " OR ");
    assert s3 == [c];
    var s4 := Replace(s3, '(', " ( ");
    ReplaceSingle(c, '(', " ( ");
    assert s4 == [c];
    var s5 := Replace(s4, ')', " ) ");
    ReplaceSingle(c, ')', " ) ");
    assert s5 == " ) ";
  }

  lemma NotWordKept()
    ensures Replace(" NOT ", '&', " AND ") == " NOT "
    ensures Replace(" NOT ", '|', " OR ") == " NOT "
    ensures Replace(" NOT ", '(', " ( ") == " NOT "
    ensures Replace(" NOT ", ')', " ) ") == " NOT "
  {
  }

  lemma AndWordKept()
    ensures Replace(" AND ", '|', " OR ") == " AND "
    ensures Replace(" AND ", '(', " ( ") == " AND "
    ensures Replace(" AND ", ')', " ) ") == " AND "
  {
  }

  lemma OrWordKept()
    ensures Replace(" OR ", '(', " ( ") == " OR "
    ensures Replace(" OR ", ')', " ) ") == " OR "
  {
  }

  lemma OpenWordKept()
    ensures Replace(" ( ", ')', " ) ") == " ( "
  {
  }

  /** The six sequential replacements act character by character. */
  lemma {:induction false} RespaceIsExpand(s: string)
    ensures Respace(s) == Expand(s)
  {
    if s == [] {
    } else {
      var c, rest := s[0], s[1..];
      assert s == [c] + rest;
      ReplaceAppend([c], rest, ' ', "");
      var a0, b0 := Replace([c], ' ', ""), Replace(rest, ' ', "");
      ReplaceAppend(a0, b0, '~', " NOT ");
      var a1, b1 := Replace(a0, '~', " NOT "), Replace(b0, '~', " NOT ");
      ReplaceAppend(a1, b1, '&', " AND ");
      var a2, b2 := Replace(a1, '&', " AND "), Replace(b1, '&', " AND ");
      ReplaceAppend(a2, b2, '|', " OR ");
      var a3, b3 := Replace(a2, '|', " OR "), Replace(b2, '|', " OR ");
      ReplaceAppend(a3, b3, '(', " ( ");
      var a4, b4 := Replace(a3, '(', " ( "), Replace(b3, '(', " ( ");
      ReplaceAppend(a4, b4, ')', " ) ");
      assert Respace(s) == Respace([c]) + Respace(rest);
      RespaceChar(c);
      RespaceIsExpand(rest);
    }
  }

  lemma {:induction false} FlankedAppend(a: string, b: string, c: char)
    requires Flanked(a, c) && Flanked(b, c)
    ensures Flanked(a + b, c)
  {
    var s := a + b;
    forall p | 0 <= p < |s| && s[p] == c
      ensures 0 < p < |s| - 1 && IsSpace(s[p - 1]) && IsSpace(s[p + 1])
    {
      if p < |a| {
        assert a[p] == c;
      } else {
        assert b[p - |a|] == c;
      }
    }
  }

  lemma ExpandCharFlanked(x: char, c: char)
    requires c == '(' || c == ')'
    ensures Flanked(ExpandChar(x), c)
  {
    var e := ExpandChar(x);
    if x == '(' || x == ')' {
      assert e == [' ', x, ' '];
    } else {
      assert c !in e;
    }
  }

  lemma {:induction false} ExpandFlanked(s: string, c: char)
    requires c == '(' || c == ')'
    ensures Flanked(Expand(s), c)
  {
    if s != [] {
      ExpandFlanked(s[1..], c);
      ExpandCharFlanked(s[0], c);
      FlankedAppend(ExpandChar(s[0]), Expand(s[1..]), c);
    }
  }

  lemma FlankedIsolated(s: string, c: char)
    requires Flanked(s, c)
    ensures Isolated(s, c)
  {
  }

  /** A character isolated by spaces is split off as a token of its own. */
  lemma {:induction false} SplitIsolated(s: string, c: char)
    requires Isolated(s, c)
    ensures forall t :: t in Split(s) ==> (c in t ==> t == [c])
    decreases |s|
  {
    if s == [] {
    } else if IsSpace(s[0]) {
      SplitIsolated(s[1..], c);
    } else {
      var n := RunLength(s);
      var t := s[..n];
      if c in t {
        forall q | 0 < q < n
          ensures s[q] != c
        {
          assert !IsSpace(s[q - 1]);
        }
        assert s[0] == c;
        assert |s| > 1 ==> IsSpace(s[1]);
        assert n == 1;
        assert t == [c];
      }
      SplitIsolated(s[n..], c);
    }
  }

  lemma {:induction false} NonSpaceAppend(a: string, b: string)
    ensures NonSpace(a + b) == NonSpace(a) + NonSpace(b)
  {
    if a == [] {
      assert a + b == b;
    } else {
      assert (a + b)[1..] == a[1..] + b;
      NonSpaceAppend(a[1..], b);
    }
  }

  lemma {:induction false} NonSpaceOfNoSpace(t: string)
    requires NoSpace(t)
    ensures NonSpace(t) == t
  {
    if t != [] {
      NonSpaceOfNoSpace(t[1..]);
    }
  }

  /** Splitting loses only the spaces: the tokens put back together are the
      input without its spaces. */
  lemma {:induction false} SplitConcat(s: string)
    ensures Concat(Split(s)) == NonSpace(s)
    decreases |s|
  {
    if s == [] {
    } else if IsSpace(s[0]) {
      SplitConcat(s[1..]);
    } else {
      var n := RunLength(s);
      assert s == s[..n] + s[n..];
      NonSpaceAppend(s[..n], s[n..]);
      NonSpaceOfNoSpace(s[..n]);
      SplitConcat(s[n..]);
      assert Split(s) == [s[..n]] + Split(s[n..]);
    }
  }

  // ----- Where the token boundaries fall -----

  /** The word an operator or parenthesis becomes a token of. */
  function Symbol(c: char): string {
    match c
    case '~' => "NOT"
    case '&' => "AND"
    case '|' => "OR"
    case _ => [c]
  }

  /** A character the replacement chain leaves as it is and `split` keeps. */
  predicate WordChar(c: char) {
    c !in "~&|() " && !IsSpace(c)
  }

  lemma {:induction false} ExpandAppend(a: string, b: string)
    ensures Expand(a + b) == Expand(a) + Expand(b)
  {
    if a == [] {
      assert a + b == b;
    } else {
      assert (a + b)[1..] == a[1..] + b;
      ExpandAppend(a[1..], b);
    }
  }

  lemma {:induction false} RunLengthBefore(a: string, sp: char, b: string)
    requires IsSpace(sp)
    ensures RunLength(a + [sp] + b) == RunLength(a)
  {
    if a != [] && !IsSpace(a[0]) {
      assert (a + [sp] + b)[1..] == a[1..] + [sp] + b;
      RunLengthBefore(a[1..], sp, b);
    }
  }

  /** `split` cuts at every space: what lies on either side is split apart. */
  lemma {:induction false} SplitAtSpace(a: string, sp: char, b: string)
    requires IsSpace(sp)
    ensures Split(a + [sp] + b) == Split(a) + Split(b)
    decreases |a|
  {
    var s := a + [sp] + b;
    if a == [] {
      assert s[1..] == b;
    } else if IsSpace(a[0]) {
      assert s[1..] == a[1..] + [sp] + b;
      SplitAtSpace(a[1..], sp, b);
    } else {
      var n := RunLength(a);
      var word, rest := a[..n], a[n..];
      assert Split(s) == [word] + Split(rest + [sp] + b) by {
        RunLengthBefore(a, sp, b);
        assert s[..n] == word && s[n..] == rest + [sp] + b;
      }
      assert Split(a) == [word] + Split(rest);
      SplitAtSpace(rest, sp, b);
    }
  }

  /** A non-empty run without spaces is one token. */
  lemma SplitWord(w: string)
    requires w != [] && NoSpace(w)
    ensures Split(w) == [w]
  {
    var n := RunLength(w);
    assert n == |w|;
    assert w[..n] == w && w[n..] == [];
  }

  lemma {:induction false} ExpandWord(w: string)
    requires forall k :: 0 <= k < |w| ==> WordChar(w[k])
    ensures Expand(w) == w
  {
    if w != [] {
      assert ExpandChar(w[0]) == [w[0]];
      ExpandWord(w[1..]);
      assert w == [w[0]] + w[1..];
    }
  }

  lemma ExpandBlank(a: string, b: string)
    ensures Expand(a + " " + b) == Expand(a + b)
  {
    var blank: string := [' '];
    assert blank[1..] == [];
    assert Expand(blank) == [];
    ExpandAppend(a + blank, b);
    ExpandAppend(a, blank);
    ExpandAppend(a, b);
  }

  /** A non-empty run of ordinary characters. */
  predicate Word(w: string) {
    w != [] && forall k :: 0 <= k < |w| ==> WordChar(w[k])
  }

  /** Blanks are dropped before anything else, so they separate nothing. */
  lemma ConcatBlank(a: string, b: string)
    ensures ConcatExpression(a + " " + b) == ConcatExpression(a + b)
  {
    ExpandBlank(a, b);
  }

  lemma LeadingBlank(s: string)
    ensures ConcatExpression(" " + s) == ConcatExpression(s)
  {
    ConcatBlank("", s);
    assert "" + " " + s == " " + s && "" + s == s;
  }

  lemma TrailingBlank(s: string)
    ensures ConcatExpression(s + " ") == ConcatExpression(s)
  {
    ConcatBlank(s, "");
    assert s + " " + "" == s + " " && s + "" == s;
  }

  lemma SymbolWord(c: char)
    requires c in "~&|()"
    ensures ExpandChar(c) == [' '] + Symbol(c) + [' ']
    ensures Symbol(c) != [] && NoSpace(Symbol(c))
  {
  }

  /** Every token is a non-empty run of characters of `s` without spaces. */
  lemma {:induction false} SplitTokens(s: string)
    ensures forall t :: t in Split(s) ==> t != [] && NoSpace(t)
    ensures forall t, x :: t in Split(s) && x in t ==> x in s
    decreases |s|
  {
    if s == [] {
    } else if IsSpace(s[0]) {
      SplitTokens(s[1..]);
    } else {
      var n := RunLength(s);
      SplitTokens(s[n..]);
    }
  }

  /** A word with a space on each side is one token between the splits of
      what surrounds it. */
  lemma SplitFramed(e: string, w: string, f: string)
    requires w != [] && NoSpace(w)
    ensures Split(e + [' '] + w + [' '] + f) == Split(e) + [w] + Split(f)
  {
    assert e + [' '] + w + [' '] + f == e + [' '] + (w + [' '] + f);
    SplitAtSpace(e, ' ', w + [' '] + f);
    SplitAtSpace(w, ' ', f);
    SplitWord(w);
  }

  lemma ExpandAround(a: string, c: char, b: string)
    requires c in "~&|()"
    ensures Expand(a + [c] + b) == Expand(a) + [' '] + Symbol(c) + [' '] + Expand(b)
    ensures Symbol(c) != [] && NoSpace(Symbol(c))
  {
    var cb := [c] + b;
    assert a + [c] + b == a + cb;
    assert cb[1..] == b;
    ExpandAppend(a, cb);
    SymbolWord(c);
  }

  /** An operator or parenthesis is a token of its own, whatever surrounds it. */
  lemma ConcatSymbol(a: string, c: char, b: string)
    requires c in "~&|()"
    ensures ConcatExpression(a + [c] + b) == ConcatExpression(a) + [Symbol(c)] + ConcatExpression(b)
  {
    ExpandAround(a, c, b);
    SplitFramed(Expand(a), Symbol(c), Expand(b));
  }

  /** A run of ordinary characters is one token, kept as written. */
  lemma ConcatWord(w: string)
    requires Word(w)
    ensures ConcatExpression(w) == [w]
  {
    ExpandWord(w);
    SplitWord(w);
  }
}
