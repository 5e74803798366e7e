# Boolean expression to NAND netlist

A model of a small compiler from boolean expressions to circuits of NAND
gates. It has two parts.

The parser (`Main.py`) does four things:
- It tokenizes the text: `~`, `&` and `|` become `NOT`, `AND` and `OR`, and each parenthesis becomes a token of its own.
- It nests the tokens into lists, one list per parenthesis pair, using a stack of open lists.
- It runs three precedence passes, in this order:
  - `NOT` takes the element after it and becomes `["not", x]`;
  - `AND` folds runs into `["AND", l, r]`, left to right;
  - `OR` folds runs into `["OR", l, r]`, left to right.
- Each pass handles sub-lists first and writes the processed sub-list back into its argument.

The lowering (`mycode_netlist.py`) has three parts:
- A De Morgan rule table with a gate count per operation, and a textual rewrite of one operation into NANDs.
- An innermost-first ordering of every list node of the tree. The nodes are collected in post-order and then stably sorted by depth, deepest first.
- A pass over that order that emits lines `temp_k = NAND(x, y)`. It uses a counter, plus a `temp_vars` dictionary holding each sub-expression's result wire and a `not_vars` dictionary holding inverters built by `not` nodes.

Modules, one file each:
- `Nested`: the nested values and the error outcomes.
- `Tokenizer`, `Brackets` and `Precedence`: `Main.py`.
- `DeMorgan`, `Traversal` and `Netlist`: `mycode_netlist.py`.
- `Corrected`: the lowering with two slips put right, and the proof that its circuit computes the expression.
- `Pipeline`: the two scripts chained, with the worked examples behind the findings.

How the source's forms are kept:
- Each `while` loop of the source is a `method` with the same loop. Its `ensures` ties the result to a recursive specification function, and lemmas prove the source's properties about that function.
- The `for sym in "()"` loop of `Main.py:5-6` runs exactly twice, so `Tokenizer.Respace` writes out its two replacements one after the other instead of looping.
- The exceptions the source raises are `Err` outcomes: `IndexError` for a bad index or a pop from an empty list, and one constructor per `ValueError` message.
- Every input on which the `AND` or `OR` pass loops forever (an operator next to an empty list) gives the explicit outcome `Err(Diverges)`.

Some behaviours of the code, all kept by the model:
- Unknown characters are kept inside identifiers; there is no lexical error.
- An unclosed `(` is dropped silently, together with every token after it: in `( A ) ( B` the result is `[["A"]]`.
- A final tree with several elements, or none, is not an error for the parser. The lowering then raises: `IndexError` for empty text (`mycode_netlist.py:92`), and the unknown-operator `ValueError` for `(A)(B)` or `A~B` (`mycode_netlist.py:136`).
- There is no output renaming to `Y`, and no buffer for a lone variable.
- An `OR` node emits one line plus one line for each operand that no `not` node has inverted, not always three lines.

## Model

| member | source | states |
|---|---|---|
| Tokenizer.ConcatExpression | Main.py:2-7 | the tokens are exactly `str.split()` of the input rewritten character by character: a blank vanishes, `~ & \| ( )` become ` NOT `, ` AND `, ` OR `, ` ( `, ` ) `, and every other character stays |
| Tokenizer.ConcatTokens | Main.py:2-7 | no token is empty or holds whitespace; no `~`, `&` or `\|` survives; a token holding a parenthesis is that parenthesis alone; joined back together, the tokens are the input with each operator spelled out and every space removed |
| Tokenizer.RespaceIsExpand | Main.py:3-6 | the six replacements, applied one after another, act character by character: blanks vanish, `~ & \|` become ` NOT `, ` AND `, ` OR `, and parentheses get a space on each side |
| Tokenizer.SplitTokens | Main.py:7 | `str.split()` yields only non-empty, whitespace-free tokens made of the input's characters |
| Tokenizer.SplitAtSpace | Main.py:7 | a whitespace character is a boundary: the tokens of `a`, whitespace, `b` are the tokens of `a` followed by the tokens of `b` |
| Tokenizer.SplitWord | Main.py:7 | a non-empty string without whitespace is one token, itself |
| Tokenizer.ConcatBlank | Main.py:3 | a blank anywhere in the input changes no token and no boundary |
| Tokenizer.LeadingBlank | Main.py:3 | a blank at the start of the input changes nothing |
| Tokenizer.TrailingBlank | Main.py:3 | a blank at the end of the input changes nothing |
| Tokenizer.ConcatSymbol | Main.py:2-7 | an operator or parenthesis always ends the token before it and starts a new one: the tokens of `a c b` are those of `a`, then `NOT`, `AND`, `OR`, `(` or `)` for `c`, then those of `b` |
| Tokenizer.ConcatWord | Main.py:2-7 | an identifier made of characters other than whitespace, operators and parentheses is one token, kept as written |
| Tokenizer.SplitConcat | Main.py:7 | splitting loses nothing but whitespace |
| Tokenizer.SplitIsolated | Main.py:5-7 | a character with whitespace or an end of the string on both sides is split off as a token of its own |
| Brackets.AccountBrackets | Main.py:11-22 | the stack loop returns the grouping function's result, error included |
| Brackets.GroupFacts | Main.py:11-22 | grouping fails with an index error exactly when a `)` closes nothing; otherwise no `(`/`)` token remains, the result flattens back to the input when every `(` is closed, and when one is left open it flattens to a proper prefix of the input that stops at a `(` no later `)` closes, every prefix of the rest staying deeper than where it starts, so the tokens from that `(` on are dropped |
| Brackets.TextSuffixOpen | Main.py:14-21 | after the bottom list's text, every non-empty prefix of the recorded text leaves a `(` open: the lists above the bottom one are never closed |
| Brackets.RunFails | Main.py:17-19 | the loop fails exactly when a `)` pops the bottom list, counting the lists already open |
| Brackets.RunSucceeds | Main.py:14-21 | a finished loop records every token read, holds no parenthesis token, and keeps one open list per unclosed `(` |
| Brackets.StepText | Main.py:15-21 | each token extends the recorded text by itself and keeps parenthesis tokens out of the lists |
| Brackets.GroupUnparse | Main.py:11-22 | grouping undoes flattening on any nested value without parenthesis tokens |
| Brackets.UnparseInjective | Main.py:11-22 | two such values with the same flattening are equal |
| Precedence.AccountNot | Main.py:69-84 | the `while` loop returns the `NOT` pass's result; on success its argument is left exactly as the write-back function says: each list met in position is replaced by the pass's result for it, and a list taken as a `NOT` operand stays in its slot with the same done to the lists inside it |
| Precedence.NotDescend | Main.py:73-78 | reading one element: a token as it is; a list through the recursive pass, failing when that pass fails, and leaving the list as its own write-back |
| Precedence.NotBackCopies | Main.py:73-74 | a level with no `NOT` anywhere is left as it was |
| Precedence.NotBackOperandList | Main.py:75-78 | for `[NOT, [NOT, A, [NOT, B]]]`, the operand list keeps its own `NOT` unfolded, while the list inside it is replaced by `[["not", B]]` |
| Precedence.NotCopies | Main.py:81-83 | a level with no `NOT` anywhere comes back unchanged |
| Precedence.NotTrailing | Main.py:75-76 | after a prefix holding no `NOT` at any depth, a final `NOT` fails reading the missing operand |
| Precedence.NotNot | Main.py:75-80 | in `NOT NOT a`, the first `NOT` takes the second `NOT` token as its operand, and `a` is kept as it is |
| Precedence.AccountAnd | Main.py:47-67 | the loop returns the `AND` pass's result; on success its argument is left exactly as the write-back function says: each list met in position is replaced by the pass's result for it, and a list taken as a right operand stays in its slot with the same done to the lists inside it |
| Precedence.AccountOr | Main.py:24-43 | the loop returns the `OR` pass's result; on success its argument is left exactly as the write-back function says, as for `AND` |
| Precedence.BinDescend | Main.py:30-38 | reading one element: a token as it is; a list through the recursive pass, failing when that pass fails, and leaving the list as its own write-back |
| Precedence.BinBackCopies | Main.py:30-31 | a level with no operator anywhere is left as it was |
| Precedence.BinaryCopies | Main.py:40-42 | a level with no operator anywhere comes back unchanged |
| Precedence.BinSkip | Main.py:64-66 | elements free of the operator are copied to the output unchanged and in order |
| Precedence.FoldChain | Main.py:56-63 | a run `x0 op x1 op ... op xn` of operands that are non-empty and hold no `op` token, not even inside their sub-lists, folds left-associatively into the one node `[op, [op, x0, x1], ..., xn]` |
| Precedence.FoldStep | Main.py:32-39 | at an operator with non-empty neighbours and an operator-free right operand, whatever the output before it, the fold pops the output's last element as the left operand, appends `[op, left, right]` and advances two positions |
| Precedence.LeadingOperator | Main.py:56-58 | an operator in first position always fails: its neighbours are `expression[-1]` and `expression[1]`, and a falsy neighbour loops forever, while otherwise `expression[1]` is missing or the pop finds an empty output |
| Precedence.FirstOperator | Main.py:32-39 | at the first operator: an empty left neighbour loops forever; a missing right operand is an index error; an empty right operand loops forever |
| Precedence.BackTruthy | Main.py:54-57 | writing processed lists back does not change the truthiness of any element, so the neighbour test reads the same as on the original argument |
| Precedence.PassTruthy | Main.py:47-67 | the pass maps a non-empty list to a non-empty one, and `[]` to `[]` |
| DeMorgan.ConvertToNand | mycode_netlist.py:22-36 | the operation is refused exactly when it is outside the rule table; it fails on the index exactly when a known rule gets fewer inputs than it reads (one for `not`, two otherwise); otherwise the text returned is the NAND circuit of the operation's rule written out |
| DeMorgan.ConvertUsesTwo | mycode_netlist.py:28-36 | inputs after the first two play no part |
| DeMorgan.RuleSound | mycode_netlist.py:4-20 | each rule's circuit computes NOT, AND or OR of its inputs, for every choice of input values |
| DeMorgan.RuleGateCount | mycode_netlist.py:4-20 | each rule's circuit has exactly its `gate_count` distinct gates (for `OR`, when its two inputs differ) |
| Traversal.InnerTraverse | mycode_netlist.py:45-64 | the closure appends its list's sub-lists, each after its own sub-lists, and then the list itself with its depth |
| Traversal.NoNestedWalk | mycode_netlist.py:51-56 | the early return for a list without sub-lists records the same as the general case |
| Traversal.TraverseNestedLists | mycode_netlist.py:38-70 | the function returns the lists of the walk after a stable sort by depth, deepest first |
| Traversal.TraversalCount | mycode_netlist.py:45-70 | every list node is listed exactly once, and the sort is a permutation of the walk |
| Traversal.NotAList | mycode_netlist.py:47-48 | a value that is not a list gives no lists |
| Traversal.ChildrenFirst | mycode_netlist.py:59-69 | the order does not increase in depth, and every sub-list of a listed list is listed before it, one level deeper |
| Traversal.RootLast | mycode_netlist.py:64-69 | the root list is listed last, and it is the only list at depth 0 |
| Traversal.SortSorted | mycode_netlist.py:69 | the sort orders by depth, deepest first |
| Traversal.SortMultiset | mycode_netlist.py:69 | the sort loses and adds nothing |
| Traversal.SortStable | mycode_netlist.py:69 | entries of equal depth keep their post-order |
| Netlist.ProcessExpression | mycode_netlist.py:77-138 | the loop over the order returns the lowering's lines, or its first error |
| Netlist.InvertOperands | mycode_netlist.py:122-129 | the `OR` operand loop returns the lowering's inverters and operand wires |
| Netlist.ProcessNumbered | mycode_netlist.py:84-87 | the counter goes up once per line: line k defines `temp_k`, so the names are distinct and consecutive from `temp_1`, and every `Temp` wire a line reads is an earlier line; input names are not told apart from line names |
| Netlist.NodeLines | mycode_netlist.py:90-119 | a one-element list emits nothing; a `not` node emits its gate count (1) of lines, the NAND of its input with itself; an `AND` node emits its gate count (2), the NAND of its first two operands and then that line's NAND with itself |
| Netlist.OrLines | mycode_netlist.py:121-133 | an `OR` node emits one line per operand that no `not` node has inverted, plus one; with two operands, neither of them inverted before, that is its gate count (3) |
| Netlist.OrTwo | mycode_netlist.py:121-133 | with two operands, an operand already inverted by a `not` node reuses that inverter, and any other operand gets a new line that inverts its raw text; the last line is the NAND of the two inverters |
| Netlist.StepAppends | mycode_netlist.py:89-136 | each node only appends lines |
| Netlist.StepErrors | mycode_netlist.py:89-136 | an empty list is an index error; a `not` list of more than two elements is an arity error; an `AND`/`OR` list with one operand is an operand-count error; any other head on two or more elements is an unknown-operator error naming that head; no other list fails |
| Netlist.StepRecords | mycode_netlist.py:99-133 | after a node of two or more elements, `temp_vars` maps the node to the wire of its last line; a `not` node also maps its operand in `not_vars` to that wire; no other key is added or changed |
| Corrected.StepSound | mycode_netlist.py:89-133 | with the slips put right, every node whose operands are ready is recorded with a wire that carries its value, and every recorded wire keeps carrying its node's value |
| Corrected.TraversalChildrenBefore | mycode_netlist.py:38-70 | in the innermost-first order, every list's sub-lists come before it |
| Corrected.CircuitComputes | mycode_netlist.py:77-138 | with the slips put right, the wire recorded for the whole expression carries its boolean value, for every choice of variable values |
| Pipeline.Compile | Main.py:90-100 | running the two scripts one after the other gives the composed specification's lines or its first error |
| Pipeline.CompileNumbered | mycode_netlist.py:141-142 | for any text, a circuit that comes out names its lines `temp_1`, `temp_2`, ... and every `Temp` wire it reads is an earlier line; input names are not told apart from line names |
| Pipeline.CompiledComputes | mycode_netlist.py:141-142 | for any text that parses and lowers with the slips put right, the circuit computes the parsed expression |
| Pipeline.OrOfAndOrder | mycode_netlist.py:38-70 | the tree of `A & B | C` is ordered as the `AND` node, then the `OR` node, then the outer list |
| Pipeline.NotOfGroupOrder | mycode_netlist.py:38-70 | the tree of `~(A & B)` is ordered as the `AND` node, then its one-element wrapper, then the `not` node, then the outer list |
| Pipeline.OrOperandAsWritten | mycode_netlist.py:121-133 | as written, the lines for `A & B | C` invert the raw text of the `AND` list, and no line reads its result `temp_2` |
| Pipeline.OrOperandCorrected | mycode_netlist.py:121-133 | corrected, line 3 inverts `temp_2`, and the expression is `temp_5` |
| Pipeline.GroupOperandAsWritten | mycode_netlist.py:90-104 | as written, the `not` of `~(A & B)` inverts the raw text of the skipped one-element group |
| Pipeline.GroupOperandCorrected | mycode_netlist.py:90-104 | corrected, the group passes `temp_2` on, the `not` inverts it, and the expression is `temp_3` |

## Left out

- `Netlist_generator.py` is not part of this model: it is a call to a hosted language model, file writing and a simulator subprocess.
- The interactive prompt and the prints (`Main.py:1`, `Main.py:90-103` and `mycode_netlist.py:143-145`) are left out. So are the module-level calls (`mycode_netlist.py:74` and `141-142`) and the hand-off through the global `expression`. `Pipeline` states the chain as a composition of functions instead.
- The `gates` and `description` strings of the rule table are documentation only; only `gate_count` is kept.
- Lines are structured values `Gate(k, a, b)`, not the formatted text `temp_k = NAND(a, b)`.
- Netlist.ProcessNumbered, Pipeline.CompileNumbered: the numbering facts are about `Temp` wires only. An input identifier may itself be spelled `temp_9`, since no prefix is reserved. For `temp_9 & B` the source prints `temp_1 = NAND(temp_9, B)`, which reads a name no earlier line defines; for `temp_1 & B` the first line reads its own name. The model keeps such an identifier as a `Raw` token, distinct from every `Temp` wire.
- Netlist.ProcessExpression: the dictionaries are keyed by the nested value itself rather than by its `str(...)` form. A raw operand is that value, not its printed form. The two differ when a token's text looks like the printed form of a list. In `~(A) | ['A']`, the token `['A']` and the group `(A)` print alike, so the source finds the group's inverter under the token's key and emits 3 lines where the model emits 4.
- `ValueError` messages are error constructors without their text.
- `Corrected.Value` gives `AND` and `OR` nodes the value of their first two operands, as the lowering reads only those two. The parser only ever builds two-operand nodes.
- Python's sort is modelled as a stable insertion sort by depth. A stable sort by key has only one possible result, so this does not change the order.
- `Tokenizer.IsSpace` writes out the characters `str.isspace()` accepts as a table of code points. The Unicode database behind it is not modelled.
- `Precedence.AccountNot`, `Precedence.AccountAnd` and `Precedence.AccountOr` return the written-back argument as a second result. They do not mutate a shared list, so the caller seeing its own list change through aliasing is not modelled.
- Precedence.AccountNot, Precedence.AccountAnd, Precedence.AccountOr: the argument as left after an error is not stated, only after success.
- `Precedence.AccountAnd` and `Precedence.AccountOr`: where the source's loop never ends, they end with `Err(Diverges)`.

## Findings

| source | as written | input that shows it | evidently intended | confidence | as-written member | corrected member |
|---|---|---|---|---|---|---|
| mycode_netlist.py:128 | an `OR` operand that no `not` node inverted is inverted as `NAND(op, op)` on the operand's raw text, even when it is a sub-expression whose result sits in `temp_vars` | `A & B \| C`: line 3 is `temp_3 = NAND(['AND', 'A', 'B'], ['AND', 'A', 'B'])`, and `temp_2`, the `AND` result, is never read | invert the operand's `temp_vars` wire, as the `not` and `AND` branches do | high; not executed | Pipeline.OrOperandAsWritten | Pipeline.OrOperandCorrected |
| mycode_netlist.py:90-91 | a one-element list is skipped and records no wire, but the parser leaves every parenthesised group wrapped in a one-element list | `~(A & B)`: line 3 is `temp_3 = NAND([['AND', 'A', 'B']], [['AND', 'A', 'B']])` on the wrapper's text, and `temp_2` is never read | record the wire of the list's single element for the list itself | high; not executed | Pipeline.GroupOperandAsWritten | Pipeline.GroupOperandCorrected |

`Corrected.CircuitComputes` proves the intended property for both corrections together: the corrected lowering computes the expression's value on every input.
