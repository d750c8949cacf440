# Calculator: a verified model of the expression evaluator

This project models the `Calculator` class of the console calculator in
`Calculator/ConsoleApp1/Program.cs`, together with its node classes `Node`,
`Operation` and `Number`. `Calculator.Evaluate(expression)` works in three stages:

1. **Scanning** (`Parse`, `ParseIn`, `TryGetNumber`, `GetNumber`, `GetOperation`).
   The text is read left to right.
   - Parentheses are not emitted. They only move a depth counter (`scobes`).
   - A decimal digit starts a number: the maximal run of digits, read with `int.Parse`.
   - Any other character is looked up in the table of operation prototypes.
   - Every node is tagged with the depth at which it was read.
2. **Tree building** (`CreateTree`, `GetLowestPriorityOf`, `Operation.Clone`).
   The node that sorts first by depth, then by priority, becomes the root. The priorities are 1 for `+ -`, 2 for `* /` and 100 for a number.
   - When that node is an operation, the nodes before it and the nodes after it become its two subtrees.
   - When it is a number, it is the whole tree.
3. **Evaluation** (`Operation.Evaluate`, `Number.Evaluate`) with C# `int` arithmetic:
   - `+ - *` wrap around modulo 2^32;
   - `/` truncates toward zero;
   - division by zero, and `int.MinValue / -1`, throw.

   Evaluation does not change the tree. `Nodes.Evaluate` is a function of the tree alone, so evaluating twice gives the same result.

Modules:

- `MachineInt` covers 32-bit wrap-around and truncating division.
- `Nodes` holds the operation kinds and their priorities, the tokens and their depth, and the tree and its evaluation. Evaluation is linked to exact integer arithmetic.
- `Lexing` gives a declarative reading of the scanner:
  - `ScanAt(s, p)` is the token that a read starting at `p` yields, at the depth of the text before `p`;
  - `Scan(s)` either fails with the error of the first failing read or returns the tokens read, in order.
- `TreeBuilding` holds the split rule and the shapes of the trees it builds.
- `Calculator` holds the scanning methods, written as loops the way the source writes them and each proved equal to its reading function in `Lexing`, plus the whole evaluation.
- `Examples` evaluates concrete expressions end to end.

Every exception the source can throw is a value of `Results.Error`, except as listed under "## Left out":

| Error | Raised by |
|---|---|
| `UnknownSymbol(c)` | the dictionary lookup of a character that is not an operator |
| `NumberTooLarge` | `int.Parse` overflowing |
| `EmptySequence` | `First()` on an empty sequence of nodes |
| `DivideByZero` | a zero divisor |
| `DivisionOverflow` | `int.MinValue / -1` |

Where the code departs from conventional arithmetic and from what a reader would expect of it, the model follows the code:

- **Equal-precedence operators group to the right.** `OrderBy` is stable and `First()` takes the leftmost of the equally weak nodes, and that node becomes the root. So `10-2-3` is `10-(2-3)` = 11, not the 5 of conventional left-to-right arithmetic (`TreeBuilding.SamePrecedenceGroupsRight`, `Examples.DifferenceOfDifference`).
- **There is no separate error for malformed input.** A leading or trailing operator, or two operators in a row, at the lowest depth of the nodes being split fails only through `First()` on an empty side. That gives `EmptySequence`, and a `CreateTree` failure has no other error.
- **Deeper adjacent operators are not always rejected.** Two adjacent operators at the lowest depth of the nodes being split always fail (`TreeBuilding.AdjacentOperationsFail`). Deeper ones fail or are dropped, depending on what is split first. A number shallower than all the remaining nodes is the whole tree and the rest is dropped: `3(1+2)` evaluates to 3 (`Examples.JuxtaposedGroupIsDropped`), and so does `3(1++2)`. A leading or trailing operator deeper than such a number is dropped in the same way: `(+1)2` evaluates to 2 (`Examples.DeepLeadingOperationIsDropped`), and the nodes of `1(2+)` build the single number 1 (`TreeBuilding.ShallowNumberIsTheTree`). In `1+(2++3)` the `++` is reached after splitting at the outer `+`, and the build fails.
- **There are no negative literals.** The notation has no unary minus, so `-5` starts with an operator at the lowest depth and fails with `EmptySequence` (`Examples.NegativeNumberFails`). `Calculator.NumberEvaluatesToItself` therefore covers only the values from 0 to `int.MaxValue`.
- **Wrap-around is not reported.** Overflow in `+ - *` wraps silently (`Examples.AdditionWraps`).
- **Parentheses are not checked for balance.** The depth may end above zero or go below it; it is an unbounded `int`.

## Model

| member | source | states |
|---|---|---|
| MachineInt.Wrap | Calculator/ConsoleApp1/Program.cs:24-26 | the 32-bit result of `+ - *` is congruent to the exact value modulo 2^32 and equals it when it is in the `int` range |
| MachineInt.TruncDiv | Calculator/ConsoleApp1/Program.cs:27 | C# integer division: the quotient's magnitude is the floor of the magnitudes' quotient, the quotient is negative exactly when the operands' signs differ, and the remainder is smaller than the divisor and has the dividend's sign |
| Nodes.OpKind.Priority | Calculator/ConsoleApp1/Program.cs:24-27 | `+` and `-` have priority 1 and `*` and `/` have priority 2, and no other kind has either |
| Nodes.Token.Priority | Calculator/ConsoleApp1/Program.cs:194 | a number's priority is 100, above that of every operation |
| Nodes.Token.AddScobes | Calculator/ConsoleApp1/Program.cs:141-144 | the depth grows by the given amount; the kind, the value and the priority are unchanged |
| Nodes.ExactApply | Calculator/ConsoleApp1/Program.cs:24-27 | reference arithmetic on unbounded integers; it fails only on a zero divisor |
| Nodes.Apply | Calculator/ConsoleApp1/Program.cs:24-27 | the 32-bit operation fails exactly on a zero divisor (`DivideByZero`) or `int.MinValue / -1` (`DivisionOverflow`); otherwise it is congruent to the exact result modulo 2^32 and equals it when that fits |
| Nodes.QuotientFits | Calculator/ConsoleApp1/Program.cs:27 | a truncated quotient of 32-bit operands fits in 32 bits unless it is `int.MinValue / -1` |
| Nodes.Evaluate | Calculator/ConsoleApp1/Program.cs:171-177 | an operation node applies its arithmetic to its evaluated children; a number evaluates to its value; evaluation fails only by division |
| Nodes.EvaluateIsExact | Calculator/ConsoleApp1/Program.cs:171-177 | when no subtree's exact value leaves the `int` range, 32-bit evaluation equals exact evaluation, including its failure on a zero divisor |
| Lexing.OperationPrototypes | Calculator/ConsoleApp1/Program.cs:22-28 | the prototype table: `+` and `-` map to the additive kinds, `*` and `/` to the multiplicative ones, and no other character is a key |
| Lexing.DecimalRoundTrip | Calculator/ConsoleApp1/Program.cs:129 | reading the decimal spelling of a number gives the number back |
| Lexing.ParseInt | Calculator/ConsoleApp1/Program.cs:129 | `int.Parse` of a digit run succeeds exactly when its value is at most `int.MaxValue`, gives that value, and otherwise fails with `NumberTooLarge` |
| Lexing.RunEnd | Calculator/ConsoleApp1/Program.cs:123-127 | the digit loop stops at the first non-digit after the start, or at the end of the text |
| Lexing.RunEndIsFirstNonDigit | Calculator/ConsoleApp1/Program.cs:123-127 | any position reached over digits and followed by a non-digit or the end is where the digit loop stops |
| Lexing.NumberAt | Calculator/ConsoleApp1/Program.cs:119-132 | the number of the maximal digit run, at depth 0; it succeeds exactly when the run's value fits, and otherwise fails with `NumberTooLarge` |
| Lexing.GetOperation | Calculator/ConsoleApp1/Program.cs:95-102 | succeeds exactly on `+ - * /`, giving an operation at the given depth whose priority is 1 exactly for `+ -`; any other character fails with `UnknownSymbol` of that character |
| Lexing.ReadToken | Calculator/ConsoleApp1/Program.cs:59-69 | a successful read is tagged with the given depth and is a number exactly when it starts at a digit; a failure is `NumberTooLarge` at a digit and `UnknownSymbol` of the character otherwise |
| Lexing.ReadTokenFacts | Calculator/ConsoleApp1/Program.cs:59-69 | a read at a digit succeeds exactly when the value of its maximal run fits in an `int`, and a number it yields has that value; a read at any other character is `GetOperation` of it |
| Lexing.TokenEnd | Calculator/ConsoleApp1/Program.cs:52 | every read consumes at least the character it starts at, so the scanning loop advances |
| Lexing.IsDigit | Calculator/ConsoleApp1/Program.cs:108 | the characters `char.IsDigit` accepts, restricted to the ASCII digits `0`-`9` (see Left out) |
| Lexing.IsScanStart | Calculator/ConsoleApp1/Program.cs:43-52 | the positions where the loop calls `ParseIn`: not a parenthesis, and not inside a digit run begun earlier, which the `out i` jump skips |
| Lexing.ScanAt | Calculator/ConsoleApp1/Program.cs:52 | the node `ParseIn` reads at a position, with `scobes` equal to the depth of the text before it |
| Lexing.TokensUpTo | Calculator/ConsoleApp1/Program.cs:40-53 | the `result` list once the loop has passed a position: the successful reads at the read starts before it, in input order |
| Lexing.Depth | Calculator/ConsoleApp1/Program.cs:41-48 | the value of `scobes` after a prefix: its opening minus its closing parentheses, never checked to stay non-negative or to return to zero |
| Lexing.DepthStep | Calculator/ConsoleApp1/Program.cs:46-48 | the depth after a character is the depth before it, plus one for `(`, minus one for `)` |
| Lexing.FirstOffence | Calculator/ConsoleApp1/Program.cs:43-54 | the first position whose read fails; there is none exactly when no read fails |
| Lexing.ScanStartsAreOrdered | Calculator/ConsoleApp1/Program.cs:43-54 | the positions the loop reads from are strictly increasing, and they are exactly the read starts before the bound |
| Lexing.Scan | Calculator/ConsoleApp1/Program.cs:38-57 | scanning succeeds exactly when no read fails; a failure carries the error of the first failing read |
| Lexing.ScanSucceeds | Calculator/ConsoleApp1/Program.cs:38-57 | when no read fails, the result is the tokens read, in order |
| Lexing.ScanFailsAt | Calculator/ConsoleApp1/Program.cs:38-57 | the first failing read decides the error of the whole scan |
| Lexing.ReadsOperation | Calculator/ConsoleApp1/Program.cs:95-102 | an operator character not inside a number is read as its operation, tagged with the depth of the text before it, and consumes one character |
| Lexing.ReadsNumber | Calculator/ConsoleApp1/Program.cs:104-132 | a maximal digit run is read once, from its first digit, as one number of its value at the depth of the text before it |
| Lexing.TokensFollowStarts | Calculator/ConsoleApp1/Program.cs:43-54 | the k-th node of the result is the one read at the k-th read start |
| Lexing.Owner | Calculator/ConsoleApp1/Program.cs:43-54 | the read start a character belongs to: itself, or the first digit of its run |
| Lexing.ExactlyOneReader | Calculator/ConsoleApp1/Program.cs:43-54 | every character other than a parenthesis is consumed by exactly one read, and a parenthesis by none |
| Lexing.ScobeStep | Calculator/ConsoleApp1/Program.cs:46-50 | a parenthesis adds no node and does not fail |
| Lexing.OperationStep | Calculator/ConsoleApp1/Program.cs:52-53 | a successful read of a non-digit appends its node and leaves the depth unchanged |
| Lexing.RunStep | Calculator/ConsoleApp1/Program.cs:52-53 | a successful read of a number appends one node for the whole run; the characters inside the run add nothing and leave the depth unchanged |
| TreeBuilding.GetLowestPriorityOf | Calculator/ConsoleApp1/Program.cs:90-93 | fails exactly on no nodes, with `EmptySequence`; otherwise it picks the first node of the stable order by depth, then priority |
| TreeBuilding.IsWeakest | Calculator/ConsoleApp1/Program.cs:92 | the result of `OrderBy(Scobes).ThenBy(Priority).First()`: no node sorts strictly before it, and every node to its left sorts strictly after it, as a stable sort keeps ties in input order |
| TreeBuilding.WeakestIsMinimal | Calculator/ConsoleApp1/Program.cs:92 | that node has the least depth, and the least priority among the nodes at that depth |
| TreeBuilding.WeakestIsUnique | Calculator/ConsoleApp1/Program.cs:92 | that first node is determined by the nodes alone |
| TreeBuilding.CreateTree | Calculator/ConsoleApp1/Program.cs:71-88 | no nodes fails; every failure is `EmptySequence`; the tree never has more nodes than the input; a tree of every node reads back, in order, as the input |
| TreeBuilding.RootIsWeakest | Calculator/ConsoleApp1/Program.cs:73-87 | a weakest number is the whole tree; a weakest operation is the root over the trees of the nodes before and after it, and the build succeeds exactly when both sides do |
| TreeBuilding.WeakestOfWellNested | Calculator/ConsoleApp1/Program.cs:73-76 | in an alternating sequence of more than one node where no operation is deeper than its neighbours, the weakest node is an operation |
| TreeBuilding.WellNestedSides | Calculator/ConsoleApp1/Program.cs:78-79 | splitting such a sequence at an operation leaves two such sequences |
| TreeBuilding.WellNestedBuilds | Calculator/ConsoleApp1/Program.cs:71-88 | such a sequence always builds a tree that uses every node and reads back as the input |
| TreeBuilding.FirstOperationIsWeakest | Calculator/ConsoleApp1/Program.cs:92 | among operations of one depth and priority, the leftmost sorts first |
| TreeBuilding.SamePrecedenceGroupsRight | Calculator/ConsoleApp1/Program.cs:73-92 | operators of one depth and priority group to the right: `a op b op c` is `a op (b op c)` |
| TreeBuilding.LeadingOperationFails | Calculator/ConsoleApp1/Program.cs:78-81 | an operation first, at the lowest depth, makes the build fail |
| TreeBuilding.TrailingOperationFails | Calculator/ConsoleApp1/Program.cs:79-82 | an operation last, at the lowest depth, makes the build fail |
| TreeBuilding.AdjacentOperationsFail | Calculator/ConsoleApp1/Program.cs:73-88 | two adjacent operations at the lowest depth make the build fail |
| TreeBuilding.ShallowNumberIsTheTree | Calculator/ConsoleApp1/Program.cs:73-87 | a number shallower than every other node is the whole tree |
| Calculator.Calculate | Calculator/ConsoleApp1/Program.cs:30-36 | a result exists only when scanning and tree building both succeed |
| Calculator.NumberEvaluatesToItself | Calculator/ConsoleApp1/Program.cs:30-36 | for every value from 0 to `int.MaxValue`, its decimal spelling evaluates to that value |
| Calculator.Evaluate | Calculator/ConsoleApp1/Program.cs:30-36 | scans, builds and evaluates, with the result of `Calculate` |
| Calculator.Parse | Calculator/ConsoleApp1/Program.cs:38-57 | the scanning loop returns exactly `Scan` of the text |
| Calculator.ParseIn | Calculator/ConsoleApp1/Program.cs:59-69 | the node read at the index at the given depth, with `lastIndex` on the last character consumed |
| Calculator.TryGetNumber | Calculator/ConsoleApp1/Program.cs:104-117 | no number exactly when the character is not a digit, and then `lastIndex` is the index; otherwise the number of the run and its last index |
| Calculator.GetNumber | Calculator/ConsoleApp1/Program.cs:119-132 | the digit loop returns the number of the maximal run, with `lastIndex` on its last digit |
| Examples.OneOperation | Calculator/ConsoleApp1/Program.cs:73-87 | `a op b` at one depth builds the node `op` over `a` and `b` |
| Examples.TwoOperations | Calculator/ConsoleApp1/Program.cs:73-92 | of two operators of different priority at one depth, the lower-priority one is the root |
| Examples.GroupOnTheLeft | Calculator/ConsoleApp1/Program.cs:73-92 | an operation deeper than the other one is built below it |
| Examples.GroupOnTheRight | Calculator/ConsoleApp1/Program.cs:73-87 | a number and an operation followed only by deeper nodes build the operation over the number and the tree of the deeper nodes |
| Examples.NestedOnTheRight | Calculator/ConsoleApp1/Program.cs:73-92 | two groups nested on the right, each deeper than the operation before it, are built innermost first |
| Examples.TwoEqualOperations | Calculator/ConsoleApp1/Program.cs:73-92 | two operators of equal priority at one depth group to the right |
| Examples.SumOfProduct | Calculator/ConsoleApp1/Program.cs:30-36 | `2+3*4` evaluates to 14 |
| Examples.ProductPlusNumber | Calculator/ConsoleApp1/Program.cs:30-36 | `2*3+4` evaluates to 10 |
| Examples.DifferenceOfDifference | Calculator/ConsoleApp1/Program.cs:30-36 | `10-2-3` evaluates to 11 |
| Examples.ParenthesesBindFirst | Calculator/ConsoleApp1/Program.cs:30-36 | `(2+3)*4` evaluates to 20 |
| Examples.NestedParenthesesCompose | Calculator/ConsoleApp1/Program.cs:30-36 | `2*(3+(4-1))` evaluates to 12 |
| Examples.JuxtaposedGroupIsDropped | Calculator/ConsoleApp1/Program.cs:30-36 | `3(1+2)` evaluates to 3 |
| Examples.DeepLeadingOperationIsDropped | Calculator/ConsoleApp1/Program.cs:73-92 | `(+1)2` evaluates to 2: the number outside the parentheses is the shallowest node and the whole tree |
| Examples.DivisionTruncates | Calculator/ConsoleApp1/Program.cs:27 | `7/2` evaluates to 3 |
| Examples.DivisionByZeroFails | Calculator/ConsoleApp1/Program.cs:27 | `5/0` fails with `DivideByZero` |
| Examples.UnaryPlusFails | Calculator/ConsoleApp1/Program.cs:78-92 | `+1` fails with `EmptySequence` |
| Examples.NegativeNumberFails | Calculator/ConsoleApp1/Program.cs:78-92 | `-5` fails with `EmptySequence`: the minus is a leading operator with no left side |
| Examples.BlanksAreRejected | Calculator/ConsoleApp1/Program.cs:95-102 | `1 + 2` fails with `UnknownSymbol(' ')` |
| Examples.AdditionWraps | Calculator/ConsoleApp1/Program.cs:24 | `int.MaxValue + 1` evaluates to `int.MinValue` |
| Examples.SumOfProductLiteral | Calculator/ConsoleApp1/Program.cs:30-36 | the string literal `2+3*4` evaluates to 14 |
| Examples.ProductPlusNumberLiteral | Calculator/ConsoleApp1/Program.cs:30-36 | the string literal `2*3+4` evaluates to 10 |
| Examples.DifferenceOfDifferenceLiteral | Calculator/ConsoleApp1/Program.cs:30-36 | the string literal `10-2-3` evaluates to 11 |
| Examples.ParenthesesBindFirstLiteral | Calculator/ConsoleApp1/Program.cs:30-36 | the string literal `(2+3)*4` evaluates to 20 |
| Examples.NestedParenthesesComposeLiteral | Calculator/ConsoleApp1/Program.cs:30-36 | the string literal `2*(3+(4-1))` evaluates to 12 |
| Examples.JuxtaposedGroupIsDroppedLiteral | Calculator/ConsoleApp1/Program.cs:30-36 | the string literal `3(1+2)` evaluates to 3 |
| Examples.DeepLeadingOperationIsDroppedLiteral | Calculator/ConsoleApp1/Program.cs:30-36 | the string literal `(+1)2` evaluates to 2 |
| Examples.DivisionTruncatesLiteral | Calculator/ConsoleApp1/Program.cs:30-36 | the string literal `7/2` evaluates to 3 |
| Examples.DivisionByZeroFailsLiteral | Calculator/ConsoleApp1/Program.cs:30-36 | the string literal `5/0` fails with `DivideByZero` |
| Examples.UnaryPlusFailsLiteral | Calculator/ConsoleApp1/Program.cs:30-36 | the string literal `+1` fails with `EmptySequence` |
| Examples.BlanksAreRejectedLiteral | Calculator/ConsoleApp1/Program.cs:30-36 | the string literal `1 + 2` fails with `UnknownSymbol(' ')` |
| Examples.NegativeNumberFailsLiteral | Calculator/ConsoleApp1/Program.cs:30-36 | the string literal `-5` fails with `EmptySequence` |

## Left out

- `Program.Main` (Program.cs:9-17) is not modelled. It reads a line from the console and prints the result; the expression is a parameter here.
- The prototype table's `Func<Operation>` factories and the `Func<int, int, int>` combining functions become the value `OpKind`. `Operation.Clone` becomes the constructor `Tree.Node` applied to that kind.
- `Node.AddScobes` is modelled as an update of a value rather than a mutation of a shared object. No node is reachable from two places, so nothing observes the difference.
- `GetOperation` and `ReadToken` build their token at its depth directly. A fresh prototype has depth 0, so this equals adding the depth afterwards, which is what `Calculator.ParseIn` does.
- `TakeWhile` and `SkipWhile` with reference inequality become slicing at the chosen index. Each operation is a distinct object, so the first node that is the chosen one is at that index.
- `OrderBy(...).ThenBy(...).First()` is modelled by its result, the first element of the stable order (`TreeBuilding.IsWeakest`). Its sorting is not modelled.
- Exceptions become values of `Error`; their messages and stack traces are not modelled.
- `Lexing.IsDigit` accepts only `0`–`9`, while `char.IsDigit` also accepts non-ASCII decimal digits. The model treats only `0`–`9` as digits, so such a character fails with `UnknownSymbol` rather than with the `FormatException` that `int.Parse` would throw. The outcome is a failure in both cases.
- A Dafny `char` is a Unicode scalar value, while a C# `char` is a UTF-16 code unit. For a character outside the Basic Multilingual Plane the source fails on its high surrogate, while the model reports `UnknownSymbol` of the whole character. Both fail; only the symbol in the error differs.
- Recursion depth is not modelled. `CreateTree` recurses once per operator of a same-precedence chain (Program.cs:81-82), each level over another lazy `TakeWhile`/`SkipWhile`/`Skip` chain (Program.cs:78-79). A long enough `1+1+…+1` therefore ends the source with a `StackOverflowException`, which cannot be caught, while the model returns its value.
- The `int` depth counter and the `int` string indices are unbounded here. Overflowing them would take more than 2^31 characters.
- A `null` expression, which `Console.ReadLine` returns at the end of input, is not modelled; it would fail on `expression.Length`.
