/**
 * The calculator: scan the expression into nodes, build the tree, evaluate it.
 * The scanning methods work step by step as the C# `Calculator` does; each is proved against
 * the reading functions of `Lexing`.
 */
module Calculator {
  import opened Results
  import opened MachineInt
  import opened Nodes
  import opened Lexing
  import opened TreeBuilding

  /** What `Evaluate` computes: scan, build, evaluate, stopping at the first failure. */
  function Calculate(expression: string): (r: Result<Int32>)
    ensures r.Success? ==> Scan(expression).Success? && CreateTree(Scan(expression).value).Success?
  {
    var nodes :- Scan(expression);
    var tree :- CreateTree(nodes);
    Nodes.Evaluate(tree)
  }

  /** A number written in decimal and nothing else evaluates to itself, for every value from 0 to `int.MaxValue`. */
  lemma NumberEvaluatesToItself(n: nat)
    requires n <= MaxInt32
    ensures Calculate(Decimal(n)) == Success(n as Int32)
  {
    var s, v := Decimal(n), n as Int32;
    assert DigitsValue(s[0..|s|]) == n by {
      assert s[0..|s|] == s;
      DecimalRoundTrip(n);
    }
    ReadsNumber(s, 0, |s|, v);
    assert Depth(s[..0]) == 0 by { assert s[..0] == []; }
    RunStep(s, 0);
    ScanSucceeds(s);
    var nodes := [Number(v, 0)];
    assert TokensUpTo(s, |s|) == TokensUpTo(s, 0) + nodes;
    assert IsWeakest(nodes, 0);
    RootIsWeakest(nodes, 0);
  }

  /** The value of an expression, or the error that stops it. */
  method Evaluate(expression: string) returns (r: Result<Int32>)
    ensures r == Calculate(expression)
  {
    var nodes := Parse(expression);
    if nodes.Failure? {
      return Failure(nodes.error);
    }
    var nodesTree := CreateTree(nodes.value);
    if nodesTree.Failure? {
      return Failure(nodesTree.error);
    }
    r := Nodes.Evaluate(nodesTree.value);
  }

  /**
   * Scans left to right: a parenthesis only moves the depth counter, every other position
   * is read by `ParseIn`, which may consume a whole digit run.
   */
  method Parse(expression: string) returns (r: Result<seq<Token>>)
    ensures r == Scan(expression)
  {
    var result: seq<Token> := [];
    var scobes := 0;
    var i := 0;
    while i < |expression|
      invariant 0 <= i <= |expression|
      invariant scobes == Depth(expression[..i])
      invariant i == 0 || i == |expression| || !IsDigit(expression[i - 1]) || !IsDigit(expression[i])
      invariant forall q :: 0 <= q < i ==> !Offending(expression, q)
      invariant result == TokensUpTo(expression, i)
      decreases |expression| - i
    {
      var symbol := expression[i];
      DepthStep(expression, i);
      if symbol == '(' || symbol == ')' {
        ScobeStep(expression, i);
        scobes := scobes + if symbol == '(' then 1 else -1;
        i := i + 1;
        continue;
      }
      var node, lastIndex := ParseIn(expression, i, scobes);
      assert IsScanStart(expression, i) && node == ScanAt(expression, i);
      if node.Failure? {
        ScanFailsAt(expression, i);
        return Failure(node.error);
      }
      if IsDigit(symbol) {
        RunStep(expression, i);
      } else {
        OperationStep(expression, i);
      }
      result := result + [node.value];
      i := lastIndex + 1;
    }
    ScanSucceeds(expression);
    return Success(result);
  }

  /** Reads the node at `index`: a number if a digit is there, else an operation. */
  method ParseIn(expression: string, index: nat, scobes: int) returns (r: Result<Token>, lastIndex: nat)
    requires index < |expression|
    ensures r == ReadToken(expression, index, scobes)
    ensures r.Success? ==> lastIndex + 1 == TokenEnd(expression, index)
  {
    var number;
    number, lastIndex := TryGetNumber(expression, index);
    if number.Some? {
      if number.value.Failure? {
        r := Failure(number.value.error);
      } else {
        r := Success(number.value.value.AddScobes(scobes));
      }
      return;
    }
    r := GetOperation(expression, index, scobes);
  }

  /** No number when no digit is at `startIndex`; otherwise the number of the digit run there. */
  method TryGetNumber(expression: string, startIndex: nat) returns (number: Option<Result<Token>>, lastIndex: nat)
    requires startIndex < |expression|
    ensures number.None? <==> !IsDigit(expression[startIndex])
    ensures number.None? ==> lastIndex == startIndex
    ensures number.Some? ==> number.value == NumberAt(expression, startIndex)
    ensures number.Some? && number.value.Success? ==> lastIndex + 1 == RunEnd(expression, startIndex)
  {
    var symbol := expression[startIndex];
    if !IsDigit(symbol) {
      number := None;
      lastIndex := startIndex;
      return;
    }
    var n;
    n, lastIndex := GetNumber(expression, startIndex);
    number := Some(n);
  }

  /** Collects the maximal digit run from `index` and parses it as a 32-bit integer. */
  method GetNumber(expression: string, index: nat) returns (r: Result<Token>, lastIndex: nat)
    requires index < |expression| && IsDigit(expression[index])
    ensures r == NumberAt(expression, index)
    ensures r.Success? ==> lastIndex + 1 == RunEnd(expression, index)
  {
    var numberString := "";
    var i := index;
    while i < |expression| && IsDigit(expression[i])
      invariant index <= i <= |expression|
      invariant numberString == expression[index..i]
      invariant forall k :: index <= k < i ==> IsDigit(expression[k])
      decreases |expression| - i
    {
      numberString := numberString + [expression[i]];
      i := i + 1;
    }
    RunEndIsFirstNonDigit(expression, index, i);
    lastIndex := i - 1;
    var numberInteger := ParseInt(numberString);
    if numberInteger.Failure? {
      r := Failure(numberInteger.error);
    } else {
      r := Success(Number(numberInteger.value, 0));
    }
  }

}
