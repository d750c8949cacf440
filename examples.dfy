/**
 * Whole expressions worked through the model, following the code as written.
 * Each scanning fact is first proved for any string with the given characters, one character at a time,
 * then used for the literal.
 */
module Examples {
  import opened Results
  import opened MachineInt
  import opened Nodes
  import opened Lexing
  import opened TreeBuilding
  import opened Calculator

  // ---- Scanning a string one character at a time.

  /** The scan has reached `i` without an error, at depth `d`, having read the nodes `acc`. */
  predicate ScannedTo(s: string, i: nat, d: int, acc: seq<Token>) {
    i <= |s| && Depth(s[..i]) == d && TokensUpTo(s, i) == acc && forall q :: 0 <= q < i ==> !Offending(s, q)
  }

  lemma StartScan(s: string)
    ensures ScannedTo(s, 0, 0, [])
  {
    assert s[..0] == [];
  }

  lemma OpenStep(s: string, i: nat, d: int, acc: seq<Token>)
    requires ScannedTo(s, i, d, acc) && i < |s| && s[i] == '('
    ensures ScannedTo(s, i + 1, d + 1, acc)
  {
    DepthStep(s, i);
    ScobeStep(s, i);
  }

  lemma CloseStep(s: string, i: nat, d: int, acc: seq<Token>)
    requires ScannedTo(s, i, d, acc) && i < |s| && s[i] == ')'
    ensures ScannedTo(s, i + 1, d - 1, acc)
  {
    DepthStep(s, i);
    ScobeStep(s, i);
  }

  lemma OperatorStep(s: string, i: nat, d: int, acc: seq<Token>)
    requires ScannedTo(s, i, d, acc) && i < |s| && s[i] in OperationPrototypes
    ensures ScannedTo(s, i + 1, d, acc + [Operation(OperationPrototypes[s[i]], d)])
  {
    DepthStep(s, i);
    ReadsOperation(s, i);
    TokensGrow(s, i, Operation(OperationPrototypes[s[i]], d));
  }

  /** A lone digit, with no digit on either side, is read as a one-digit number. */
  lemma DigitStep(s: string, i: nat, d: int, acc: seq<Token>)
    requires ScannedTo(s, i, d, acc) && i < |s| && IsDigit(s[i])
    requires (i == 0 || !IsDigit(s[i - 1])) && (i + 1 == |s| || !IsDigit(s[i + 1]))
    ensures ScannedTo(s, i + 1, d, acc + [Number(DigitValue(s[i]) as Int32, d)])
  {
    DepthStep(s, i);
    assert s[i..i + 1] == [s[i]];
    assert [s[i]][..0] == [];
    ReadsNumber(s, i, i + 1, DigitValue(s[i]) as Int32);
    TokensGrow(s, i, Number(DigitValue(s[i]) as Int32, d));
  }

  /** The run "10" at `i` is read as one number. */
  lemma TenStep(s: string, i: nat, d: int, acc: seq<Token>)
    requires ScannedTo(s, i, d, acc) && i + 1 < |s| && s[i] == '1' && s[i + 1] == '0'
    requires (i == 0 || !IsDigit(s[i - 1])) && (i + 2 == |s| || !IsDigit(s[i + 2]))
    ensures ScannedTo(s, i + 2, d, acc + [Number(10, d)])
  {
    var r := s[i..i + 2];
    assert DigitsValue(r) == 10 by {
      assert r[..1][..0] == [] && r[..1] == [s[i]] && r[1] == s[i + 1];
      assert DigitsValue(r[..1]) == 1;
      assert DigitsValue(r) == DigitsValue(r[..1]) * 10 + DigitValue(r[1]);
    }
    ReadsNumber(s, i, i + 2, 10);
    RunStep(s, i);
  }

  lemma FinishScan(s: string, d: int, acc: seq<Token>)
    requires ScannedTo(s, |s|, d, acc)
    ensures Scan(s) == Success(acc)
  {
    ScanSucceeds(s);
  }

  // ---- Tree shapes of short node sequences, for any values.

  /** One operation between two numbers at one depth. */
  lemma OneOperation(a: Int32, op: OpKind, b: Int32, d: int)
    ensures CreateTree([Number(a, d), Operation(op, d), Number(b, d)]) == Success(Node(op, Leaf(a), Leaf(b)))
  {
    var t := [Number(a, d), Operation(op, d), Number(b, d)];
    assert IsWeakest(t, 1);
    RootIsWeakest(t, 1);
    assert t[..1] == [Number(a, d)] && t[2..] == [Number(b, d)];
    assert IsWeakest(t[..1], 0) && IsWeakest(t[2..], 0);
    RootIsWeakest(t[..1], 0);
    RootIsWeakest(t[2..], 0);
  }

  /** Of two operations at one depth, the weaker-binding one is the root, wherever it stands. */
  lemma TwoOperations(a: Int32, op1: OpKind, b: Int32, op2: OpKind, c: Int32, d: int)
    requires op1.Priority() != op2.Priority()
    ensures op1.Priority() < op2.Priority() ==>
              CreateTree([Number(a, d), Operation(op1, d), Number(b, d), Operation(op2, d), Number(c, d)])
              == Success(Node(op1, Leaf(a), Node(op2, Leaf(b), Leaf(c))))
    ensures op1.Priority() > op2.Priority() ==>
              CreateTree([Number(a, d), Operation(op1, d), Number(b, d), Operation(op2, d), Number(c, d)])
              == Success(Node(op2, Node(op1, Leaf(a), Leaf(b)), Leaf(c)))
  {
    var t := [Number(a, d), Operation(op1, d), Number(b, d), Operation(op2, d), Number(c, d)];
    var k := if op1.Priority() < op2.Priority() then 1 else 3;
    forall j | 0 <= j < |t| ensures !Precedes(t[j], t[k]) {
      assert j == 0 || j == 1 || j == 2 || j == 3 || j == 4;
    }
    assert IsWeakest(t, k);
    RootIsWeakest(t, k);
    if k == 1 {
      assert t[..1] == [Number(a, d)];
      assert IsWeakest(t[..1], 0);
      RootIsWeakest(t[..1], 0);
      assert t[2..] == [Number(b, d), Operation(op2, d), Number(c, d)];
      OneOperation(b, op2, c, d);
    } else {
      assert t[..3] == [Number(a, d), Operation(op1, d), Number(b, d)];
      OneOperation(a, op1, b, d);
      assert t[4..] == [Number(c, d)];
      assert IsWeakest(t[4..], 0);
      RootIsWeakest(t[4..], 0);
    }
  }

  /** A deeper (parenthesised) operation on the left is built first, whatever the priorities. */
  lemma GroupOnTheLeft(a: Int32, op1: OpKind, b: Int32, op2: OpKind, c: Int32, e: int, d: int)
    requires d < e
    ensures CreateTree([Number(a, e), Operation(op1, e), Number(b, e), Operation(op2, d), Number(c, d)])
            == Success(Node(op2, Node(op1, Leaf(a), Leaf(b)), Leaf(c)))
  {
    var t := [Number(a, e), Operation(op1, e), Number(b, e), Operation(op2, d), Number(c, d)];
    forall j | 0 <= j < |t| ensures !Precedes(t[j], t[3]) {
      assert j == 0 || j == 1 || j == 2 || j == 3 || j == 4;
    }
    assert IsWeakest(t, 3);
    RootIsWeakest(t, 3);
    assert t[..3] == [Number(a, e), Operation(op1, e), Number(b, e)];
    OneOperation(a, op1, b, e);
    assert t[4..] == [Number(c, d)];
    assert IsWeakest(t[4..], 0);
    RootIsWeakest(t[4..], 0);
  }

  /** Before nodes that are all deeper, the operation after a leading number is the weakest node. */
  lemma OperationBeforeDeeperIsWeakest(a: Int32, op: OpKind, rest: seq<Token>, d: int)
    requires forall j :: 0 <= j < |rest| ==> d < rest[j].depth
    ensures IsWeakest([Number(a, d), Operation(op, d)] + rest, 1)
  {
    var t := [Number(a, d), Operation(op, d)] + rest;
    forall j | 0 <= j < |t| ensures !Precedes(t[j], t[1]) {
      if j >= 2 {
        assert t[j] == rest[j - 2];
      }
    }
  }

  /** A number and an operation, followed only by deeper (parenthesised) nodes: the operation is the root. */
  lemma GroupOnTheRight(a: Int32, op: OpKind, rest: seq<Token>, d: int)
    requires forall j :: 0 <= j < |rest| ==> d < rest[j].depth
    requires CreateTree(rest).Success?
    ensures CreateTree([Number(a, d), Operation(op, d)] + rest) == Success(Node(op, Leaf(a), CreateTree(rest).value))
  {
    var t := [Number(a, d), Operation(op, d)] + rest;
    OperationBeforeDeeperIsWeakest(a, op, rest, d);
    assert t[2..] == rest;
    assert CreateTree(t[..1]) == Success(Leaf(a)) by {
      assert t[..1] == [Number(a, d)];
      assert IsWeakest(t[..1], 0);
      RootIsWeakest(t[..1], 0);
    }
    RootIsWeakest(t, 1);
  }

  /** Two groups nested on the right, each deeper than the operation before it, are built innermost first. */
  lemma NestedOnTheRight(a: Int32, op1: OpKind, b: Int32, op2: OpKind, c: Int32, op3: OpKind, e: Int32, d0: int, d1: int, d2: int)
    requires d0 < d1 < d2
    ensures CreateTree([Number(a, d0), Operation(op1, d0), Number(b, d1), Operation(op2, d1), Number(c, d2), Operation(op3, d2), Number(e, d2)])
            == Success(Node(op1, Leaf(a), Node(op2, Leaf(b), Node(op3, Leaf(c), Leaf(e)))))
  {
    var inner := [Number(c, d2), Operation(op3, d2), Number(e, d2)];
    var middle := [Number(b, d1), Operation(op2, d1), Number(c, d2), Operation(op3, d2), Number(e, d2)];
    var t := [Number(a, d0), Operation(op1, d0), Number(b, d1), Operation(op2, d1), Number(c, d2), Operation(op3, d2), Number(e, d2)];
    assert middle == [Number(b, d1), Operation(op2, d1)] + inner;
    assert t == [Number(a, d0), Operation(op1, d0)] + middle;
    OneOperation(c, op3, e, d2);
    GroupOnTheRight(b, op2, inner, d1);
    assert forall j :: 0 <= j < |middle| ==> d0 < middle[j].depth;
    GroupOnTheRight(a, op1, middle, d0);
  }


  // ---- "2+3*4" and "2*3+4": at one depth `*` binds tighter than `+` on either side.

  lemma ScanOfTwoPlusThreeTimesFourHalfway(s: string)
    requires |s| == 5 && s[0] == '2' && s[1] == '+' && s[2] == '3' && s[3] == '*' && s[4] == '4'
    ensures ScannedTo(s, 2, 0, [Number(2, 0), Operation(Add, 0)])
  {
    var a0: seq<Token> := [];
    var a1 := a0 + [Number(2, 0)];
    var a2 := a1 + [Operation(Add, 0)];
    assert ScannedTo(s, 1, 0, a1) by {
      StartScan(s);
      DigitStep(s, 0, 0, a0);
    }
    assert ScannedTo(s, 2, 0, a2) by {
      OperatorStep(s, 1, 0, a1);
    }
  }

  lemma ScanOfTwoPlusThreeTimesFour(s: string)
    requires |s| == 5 && s[0] == '2' && s[1] == '+' && s[2] == '3' && s[3] == '*' && s[4] == '4'
    ensures Scan(s) == Success([Number(2, 0), Operation(Add, 0), Number(3, 0), Operation(Mul, 0), Number(4, 0)])
  {
    var a2: seq<Token> := [Number(2, 0), Operation(Add, 0)];
    var a3 := a2 + [Number(3, 0)];
    var a4 := a3 + [Operation(Mul, 0)];
    var a5 := a4 + [Number(4, 0)];
    assert ScannedTo(s, 2, 0, a2) by { ScanOfTwoPlusThreeTimesFourHalfway(s); }
    assert ScannedTo(s, 3, 0, a3) by {
      DigitStep(s, 2, 0, a2);
    }
    assert ScannedTo(s, 4, 0, a4) by {
      OperatorStep(s, 3, 0, a3);
    }
    assert ScannedTo(s, 5, 0, a5) by {
      DigitStep(s, 4, 0, a4);
    }
    FinishScan(s, 0, a5);
    assert a5 == [Number(2, 0), Operation(Add, 0), Number(3, 0), Operation(Mul, 0), Number(4, 0)];
  }

  lemma ScanOfTwoTimesThreePlusFourHalfway(s: string)
    requires |s| == 5 && s[0] == '2' && s[1] == '*' && s[2] == '3' && s[3] == '+' && s[4] == '4'
    ensures ScannedTo(s, 2, 0, [Number(2, 0), Operation(Mul, 0)])
  {
    var a0: seq<Token> := [];
    var a1 := a0 + [Number(2, 0)];
    var a2 := a1 + [Operation(Mul, 0)];
    assert ScannedTo(s, 1, 0, a1) by {
      StartScan(s);
      DigitStep(s, 0, 0, a0);
    }
    assert ScannedTo(s, 2, 0, a2) by {
      OperatorStep(s, 1, 0, a1);
    }
  }

  lemma ScanOfTwoTimesThreePlusFour(s: string)
    requires |s| == 5 && s[0] == '2' && s[1] == '*' && s[2] == '3' && s[3] == '+' && s[4] == '4'
    ensures Scan(s) == Success([Number(2, 0), Operation(Mul, 0), Number(3, 0), Operation(Add, 0), Number(4, 0)])
  {
    var a2: seq<Token> := [Number(2, 0), Operation(Mul, 0)];
    var a3 := a2 + [Number(3, 0)];
    var a4 := a3 + [Operation(Add, 0)];
    var a5 := a4 + [Number(4, 0)];
    assert ScannedTo(s, 2, 0, a2) by { ScanOfTwoTimesThreePlusFourHalfway(s); }
    assert ScannedTo(s, 3, 0, a3) by {
      DigitStep(s, 2, 0, a2);
    }
    assert ScannedTo(s, 4, 0, a4) by {
      OperatorStep(s, 3, 0, a3);
    }
    assert ScannedTo(s, 5, 0, a5) by {
      DigitStep(s, 4, 0, a4);
    }
    FinishScan(s, 0, a5);
    assert a5 == [Number(2, 0), Operation(Mul, 0), Number(3, 0), Operation(Add, 0), Number(4, 0)];
  }

  lemma SumOfProduct(s: string)
    requires |s| == 5 && s[0] == '2' && s[1] == '+' && s[2] == '3' && s[3] == '*' && s[4] == '4'
    ensures Calculate(s) == Success(14)
  {
    var t := [Number(2, 0), Operation(Add, 0), Number(3, 0), Operation(Mul, 0), Number(4, 0)];
    assert Scan(s) == Success(t) by { ScanOfTwoPlusThreeTimesFour(s); }
    assert CreateTree(t) == Success(Node(Add, Leaf(2), Node(Mul, Leaf(3), Leaf(4)))) by {
      TwoOperations(2, Add, 3, Mul, 4, 0);
    }
  }

  lemma ProductPlusNumber(s: string)
    requires |s| == 5 && s[0] == '2' && s[1] == '*' && s[2] == '3' && s[3] == '+' && s[4] == '4'
    ensures Calculate(s) == Success(10)
  {
    var t := [Number(2, 0), Operation(Mul, 0), Number(3, 0), Operation(Add, 0), Number(4, 0)];
    assert Scan(s) == Success(t) by { ScanOfTwoTimesThreePlusFour(s); }
    assert CreateTree(t) == Success(Node(Add, Node(Mul, Leaf(2), Leaf(3)), Leaf(4))) by {
      TwoOperations(2, Mul, 3, Add, 4, 0);
    }
  }

  // ---- "10-2-3": operators of equal precedence group to the right, so the answer is 10 - (2 - 3).

  lemma ScanOfTenMinusTwoMinusThreeHalfway(s: string)
    requires |s| == 6 && s[0] == '1' && s[1] == '0' && s[2] == '-' && s[3] == '2' && s[4] == '-' && s[5] == '3'
    ensures ScannedTo(s, 3, 0, [Number(10, 0), Operation(Sub, 0)])
  {
    var a0: seq<Token> := [];
    var a1 := a0 + [Number(10, 0)];
    var a2 := a1 + [Operation(Sub, 0)];
    assert ScannedTo(s, 2, 0, a1) by {
      StartScan(s);
      TenStep(s, 0, 0, a0);
    }
    assert ScannedTo(s, 3, 0, a2) by {
      OperatorStep(s, 2, 0, a1);
    }
  }

  lemma ScanOfTenMinusTwoMinusThree(s: string)
    requires |s| == 6 && s[0] == '1' && s[1] == '0' && s[2] == '-' && s[3] == '2' && s[4] == '-' && s[5] == '3'
    ensures Scan(s) == Success([Number(10, 0), Operation(Sub, 0), Number(2, 0), Operation(Sub, 0), Number(3, 0)])
  {
    var a2: seq<Token> := [Number(10, 0), Operation(Sub, 0)];
    var a3 := a2 + [Number(2, 0)];
    var a4 := a3 + [Operation(Sub, 0)];
    var a5 := a4 + [Number(3, 0)];
    assert ScannedTo(s, 3, 0, a2) by { ScanOfTenMinusTwoMinusThreeHalfway(s); }
    assert ScannedTo(s, 4, 0, a3) by {
      DigitStep(s, 3, 0, a2);
    }
    assert ScannedTo(s, 5, 0, a4) by {
      OperatorStep(s, 4, 0, a3);
    }
    assert ScannedTo(s, 6, 0, a5) by {
      DigitStep(s, 5, 0, a4);
    }
    FinishScan(s, 0, a5);
    assert a5 == [Number(10, 0), Operation(Sub, 0), Number(2, 0), Operation(Sub, 0), Number(3, 0)];
  }

  /** Two equal-priority operations at one depth: the first one is the root. */
  lemma TwoEqualOperations(a: Int32, op1: OpKind, b: Int32, op2: OpKind, c: Int32, d: int)
    requires op1.Priority() == op2.Priority()
    ensures CreateTree([Number(a, d), Operation(op1, d), Number(b, d), Operation(op2, d), Number(c, d)])
            == Success(Node(op1, Leaf(a), Node(op2, Leaf(b), Leaf(c))))
  {
    var t := [Number(a, d), Operation(op1, d), Number(b, d), Operation(op2, d), Number(c, d)];
    assert FlatChain(t, d, op1.Priority()) by {
      forall i | 0 <= i < |t| ensures (t[i].Number? <==> i % 2 == 0) && t[i].depth == d {
        assert i == 0 || i == 1 || i == 2 || i == 3 || i == 4;
      }
    }
    assert CreateTree(t) == Success(RightNested(t)) by { SamePrecedenceGroupsRight(t, d, op1.Priority()); }
    assert RightNested(t) == Node(op1, Leaf(a), Node(op2, Leaf(b), Leaf(c))) by {
      assert t[2..] == [Number(b, d), Operation(op2, d), Number(c, d)];
      assert t[2..][2..] == [Number(c, d)];
      assert RightNested(t[2..][2..]) == Leaf(c);
      assert RightNested(t[2..]) == Node(op2, Leaf(b), Leaf(c));
    }
  }

  lemma DifferenceOfDifference(s: string)
    requires |s| == 6 && s[0] == '1' && s[1] == '0' && s[2] == '-' && s[3] == '2' && s[4] == '-' && s[5] == '3'
    ensures Calculate(s) == Success(11)
  {
    var t := [Number(10, 0), Operation(Sub, 0), Number(2, 0), Operation(Sub, 0), Number(3, 0)];
    assert Scan(s) == Success(t) by { ScanOfTenMinusTwoMinusThree(s); }
    assert CreateTree(t) == Success(Node(Sub, Leaf(10), Node(Sub, Leaf(2), Leaf(3)))) by {
      TwoEqualOperations(10, Sub, 2, Sub, 3, 0);
    }
  }

  // ---- "(2+3)*4": parentheses push the addition one level deeper, so the product is split first.

  lemma ScanOfParenthesisedSumTimesFourHalfway(s: string)
    requires |s| == 7 && s[0] == '(' && s[1] == '2' && s[2] == '+' && s[3] == '3' && s[4] == ')' && s[5] == '*' && s[6] == '4'
    ensures ScannedTo(s, 3, 1, [Number(2, 1), Operation(Add, 1)])
  {
    var a0: seq<Token> := [];
    var a1 := a0 + [Number(2, 1)];
    var a2 := a1 + [Operation(Add, 1)];
    assert ScannedTo(s, 1, 1, a0) by {
      StartScan(s);
      OpenStep(s, 0, 0, a0);
    }
    assert ScannedTo(s, 2, 1, a1) by {
      DigitStep(s, 1, 1, a0);
    }
    assert ScannedTo(s, 3, 1, a2) by {
      OperatorStep(s, 2, 1, a1);
    }
  }

  lemma ScanOfParenthesisedSumTimesFour(s: string)
    requires |s| == 7 && s[0] == '(' && s[1] == '2' && s[2] == '+' && s[3] == '3' && s[4] == ')' && s[5] == '*' && s[6] == '4'
    ensures Scan(s) == Success([Number(2, 1), Operation(Add, 1), Number(3, 1), Operation(Mul, 0), Number(4, 0)])
  {
    var a2: seq<Token> := [Number(2, 1), Operation(Add, 1)];
    var a3 := a2 + [Number(3, 1)];
    var a4 := a3 + [Operation(Mul, 0)];
    var a5 := a4 + [Number(4, 0)];
    assert ScannedTo(s, 3, 1, a2) by { ScanOfParenthesisedSumTimesFourHalfway(s); }
    assert ScannedTo(s, 4, 1, a3) by {
      DigitStep(s, 3, 1, a2);
    }
    assert ScannedTo(s, 5, 0, a3) by {
      CloseStep(s, 4, 1, a3);
    }
    assert ScannedTo(s, 6, 0, a4) by {
      OperatorStep(s, 5, 0, a3);
    }
    assert ScannedTo(s, 7, 0, a5) by {
      DigitStep(s, 6, 0, a4);
    }
    FinishScan(s, 0, a5);
    assert a5 == [Number(2, 1), Operation(Add, 1), Number(3, 1), Operation(Mul, 0), Number(4, 0)];
  }

  lemma ParenthesesBindFirst(s: string)
    requires |s| == 7 && s[0] == '(' && s[1] == '2' && s[2] == '+' && s[3] == '3' && s[4] == ')' && s[5] == '*' && s[6] == '4'
    ensures Calculate(s) == Success(20)
  {
    var t := [Number(2, 1), Operation(Add, 1), Number(3, 1), Operation(Mul, 0), Number(4, 0)];
    assert Scan(s) == Success(t) by { ScanOfParenthesisedSumTimesFour(s); }
    assert CreateTree(t) == Success(Node(Mul, Node(Add, Leaf(2), Leaf(3)), Leaf(4))) by {
      GroupOnTheLeft(2, Add, 3, Mul, 4, 1, 0);
    }
  }

  // ---- "3(1+2)": a juxtaposed group is not rejected; the shallowest number alone becomes the tree.

  lemma ScanOfThreeBeforeGroupHalfway(s: string)
    requires |s| == 6 && s[0] == '3' && s[1] == '(' && s[2] == '1' && s[3] == '+' && s[4] == '2' && s[5] == ')'
    ensures ScannedTo(s, 3, 1, [Number(3, 0), Number(1, 1)])
  {
    var a0: seq<Token> := [];
    var a1 := a0 + [Number(3, 0)];
    var a2 := a1 + [Number(1, 1)];
    assert ScannedTo(s, 1, 0, a1) by {
      StartScan(s);
      DigitStep(s, 0, 0, a0);
    }
    assert ScannedTo(s, 2, 1, a1) by {
      OpenStep(s, 1, 0, a1);
    }
    assert ScannedTo(s, 3, 1, a2) by {
      DigitStep(s, 2, 1, a1);
    }
  }

  lemma ScanOfThreeBeforeGroup(s: string)
    requires |s| == 6 && s[0] == '3' && s[1] == '(' && s[2] == '1' && s[3] == '+' && s[4] == '2' && s[5] == ')'
    ensures Scan(s) == Success([Number(3, 0), Number(1, 1), Operation(Add, 1), Number(2, 1)])
  {
    var a2: seq<Token> := [Number(3, 0), Number(1, 1)];
    var a3 := a2 + [Operation(Add, 1)];
    var a4 := a3 + [Number(2, 1)];
    assert ScannedTo(s, 3, 1, a2) by { ScanOfThreeBeforeGroupHalfway(s); }
    assert ScannedTo(s, 4, 1, a3) by {
      OperatorStep(s, 3, 1, a2);
    }
    assert ScannedTo(s, 5, 1, a4) by {
      DigitStep(s, 4, 1, a3);
    }
    assert ScannedTo(s, 6, 0, a4) by {
      CloseStep(s, 5, 1, a4);
    }
    FinishScan(s, 0, a4);
    assert a4 == [Number(3, 0), Number(1, 1), Operation(Add, 1), Number(2, 1)];
  }

  lemma JuxtaposedGroupIsDropped(s: string)
    requires |s| == 6 && s[0] == '3' && s[1] == '(' && s[2] == '1' && s[3] == '+' && s[4] == '2' && s[5] == ')'
    ensures Calculate(s) == Success(3)
  {
    var t := [Number(3, 0), Number(1, 1), Operation(Add, 1), Number(2, 1)];
    assert Scan(s) == Success(t) by { ScanOfThreeBeforeGroup(s); }
    assert CreateTree(t) == Success(Leaf(3)) by {
      forall j | 0 <= j < |t| && j != 0 ensures t[0].depth < t[j].depth {
        assert j == 1 || j == 2 || j == 3;
      }
      ShallowNumberIsTheTree(t, 0);
    }
  }

  // ---- "2*(3+(4-1))": each parenthesised group is built below the operation outside it.

  lemma ScanOfNestedParenthesesHalfway(s: string)
    requires |s| == 11 && s[0] == '2' && s[1] == '*' && s[2] == '(' && s[3] == '3' && s[4] == '+' && s[5] == '(' && s[6] == '4' && s[7] == '-' && s[8] == '1' && s[9] == ')' && s[10] == ')'
    ensures ScannedTo(s, 5, 1, [Number(2, 0), Operation(Mul, 0), Number(3, 1), Operation(Add, 1)])
  {
    var a0: seq<Token> := [];
    var a1 := a0 + [Number(2, 0)];
    var a2 := a1 + [Operation(Mul, 0)];
    var a3 := a2 + [Number(3, 1)];
    var a4 := a3 + [Operation(Add, 1)];
    assert ScannedTo(s, 1, 0, a1) by {
      StartScan(s);
      DigitStep(s, 0, 0, a0);
    }
    assert ScannedTo(s, 2, 0, a2) by {
      OperatorStep(s, 1, 0, a1);
    }
    assert ScannedTo(s, 3, 1, a2) by {
      OpenStep(s, 2, 0, a2);
    }
    assert ScannedTo(s, 4, 1, a3) by {
      DigitStep(s, 3, 1, a2);
    }
    assert ScannedTo(s, 5, 1, a4) by {
      OperatorStep(s, 4, 1, a3);
    }
  }

  lemma ScanOfNestedParentheses(s: string)
    requires |s| == 11 && s[0] == '2' && s[1] == '*' && s[2] == '(' && s[3] == '3' && s[4] == '+' && s[5] == '(' && s[6] == '4' && s[7] == '-' && s[8] == '1' && s[9] == ')' && s[10] == ')'
    ensures Scan(s) == Success([Number(2, 0), Operation(Mul, 0), Number(3, 1), Operation(Add, 1), Number(4, 2), Operation(Sub, 2), Number(1, 2)])
  {
    var a4: seq<Token> := [Number(2, 0), Operation(Mul, 0), Number(3, 1), Operation(Add, 1)];
    var a5 := a4 + [Number(4, 2)];
    var a6 := a5 + [Operation(Sub, 2)];
    var a7 := a6 + [Number(1, 2)];
    assert ScannedTo(s, 5, 1, a4) by { ScanOfNestedParenthesesHalfway(s); }
    assert ScannedTo(s, 6, 2, a4) by {
      OpenStep(s, 5, 1, a4);
    }
    assert ScannedTo(s, 7, 2, a5) by {
      DigitStep(s, 6, 2, a4);
    }
    assert ScannedTo(s, 8, 2, a6) by {
      OperatorStep(s, 7, 2, a5);
    }
    assert ScannedTo(s, 9, 2, a7) by {
      DigitStep(s, 8, 2, a6);
    }
    assert ScannedTo(s, 10, 1, a7) by {
      CloseStep(s, 9, 2, a7);
    }
    assert ScannedTo(s, 11, 0, a7) by {
      CloseStep(s, 10, 1, a7);
    }
    FinishScan(s, 0, a7);
    assert a7 == [Number(2, 0), Operation(Mul, 0), Number(3, 1), Operation(Add, 1), Number(4, 2), Operation(Sub, 2), Number(1, 2)];
  }


  lemma NestedParenthesesCompose(s: string)
    requires |s| == 11 && s[0] == '2' && s[1] == '*' && s[2] == '(' && s[3] == '3' && s[4] == '+' && s[5] == '(' && s[6] == '4' && s[7] == '-' && s[8] == '1' && s[9] == ')' && s[10] == ')'
    ensures Calculate(s) == Success(12)
  {
    var t := [Number(2, 0), Operation(Mul, 0), Number(3, 1), Operation(Add, 1), Number(4, 2), Operation(Sub, 2), Number(1, 2)];
    assert Scan(s) == Success(t) by { ScanOfNestedParentheses(s); }
    assert CreateTree(t) == Success(Node(Mul, Leaf(2), Node(Add, Leaf(3), Node(Sub, Leaf(4), Leaf(1))))) by {
      NestedOnTheRight(2, Mul, 3, Add, 4, Sub, 1, 0, 1, 2);
    }
  }

  // ---- "(+1)2": an operator below the lowest depth is not rejected; the shallow number is the tree.

  lemma ScanOfSignedGroupBeforeTwoHalfway(s: string)
    requires |s| == 5 && s[0] == '(' && s[1] == '+' && s[2] == '1' && s[3] == ')' && s[4] == '2'
    ensures ScannedTo(s, 2, 1, [Operation(Add, 1)])
  {
    var a0: seq<Token> := [];
    var a1 := a0 + [Operation(Add, 1)];
    assert ScannedTo(s, 1, 1, a0) by {
      StartScan(s);
      OpenStep(s, 0, 0, a0);
    }
    assert ScannedTo(s, 2, 1, a1) by {
      OperatorStep(s, 1, 1, a0);
    }
  }

  lemma ScanOfSignedGroupBeforeTwo(s: string)
    requires |s| == 5 && s[0] == '(' && s[1] == '+' && s[2] == '1' && s[3] == ')' && s[4] == '2'
    ensures Scan(s) == Success([Operation(Add, 1), Number(1, 1), Number(2, 0)])
  {
    var a1: seq<Token> := [Operation(Add, 1)];
    var a2 := a1 + [Number(1, 1)];
    var a3 := a2 + [Number(2, 0)];
    assert ScannedTo(s, 2, 1, a1) by { ScanOfSignedGroupBeforeTwoHalfway(s); }
    assert ScannedTo(s, 3, 1, a2) by {
      DigitStep(s, 2, 1, a1);
    }
    assert ScannedTo(s, 4, 0, a2) by {
      CloseStep(s, 3, 1, a2);
    }
    assert ScannedTo(s, 5, 0, a3) by {
      DigitStep(s, 4, 0, a2);
    }
    FinishScan(s, 0, a3);
    assert a3 == [Operation(Add, 1), Number(1, 1), Number(2, 0)];
  }


  lemma DeepLeadingOperationIsDropped(s: string)
    requires |s| == 5 && s[0] == '(' && s[1] == '+' && s[2] == '1' && s[3] == ')' && s[4] == '2'
    ensures Calculate(s) == Success(2)
  {
    var t := [Operation(Add, 1), Number(1, 1), Number(2, 0)];
    assert Scan(s) == Success(t) by { ScanOfSignedGroupBeforeTwo(s); }
    assert CreateTree(t) == Success(Leaf(2)) by {
      forall j | 0 <= j < |t| && j != 2 ensures t[2].depth < t[j].depth {
        assert j == 0 || j == 1;
      }
      ShallowNumberIsTheTree(t, 2);
    }
  }

  // ---- "7/2" and "5/0": division truncates, and a zero divisor is an error.

  lemma ScanOfSevenOverTwo(s: string)
    requires |s| == 3 && s[0] == '7' && s[1] == '/' && s[2] == '2'
    ensures Scan(s) == Success([Number(7, 0), Operation(Div, 0), Number(2, 0)])
  {
    var a0: seq<Token> := [];
    var a1 := a0 + [Number(7, 0)];
    var a2 := a1 + [Operation(Div, 0)];
    var a3 := a2 + [Number(2, 0)];
    assert ScannedTo(s, 1, 0, a1) by {
      StartScan(s);
      DigitStep(s, 0, 0, a0);
    }
    assert ScannedTo(s, 2, 0, a2) by {
      OperatorStep(s, 1, 0, a1);
    }
    assert ScannedTo(s, 3, 0, a3) by {
      DigitStep(s, 2, 0, a2);
    }
    FinishScan(s, 0, a3);
    assert a3 == [Number(7, 0), Operation(Div, 0), Number(2, 0)];
  }

  lemma ScanOfFiveOverZero(s: string)
    requires |s| == 3 && s[0] == '5' && s[1] == '/' && s[2] == '0'
    ensures Scan(s) == Success([Number(5, 0), Operation(Div, 0), Number(0, 0)])
  {
    var a0: seq<Token> := [];
    var a1 := a0 + [Number(5, 0)];
    var a2 := a1 + [Operation(Div, 0)];
    var a3 := a2 + [Number(0, 0)];
    assert ScannedTo(s, 1, 0, a1) by {
      StartScan(s);
      DigitStep(s, 0, 0, a0);
    }
    assert ScannedTo(s, 2, 0, a2) by {
      OperatorStep(s, 1, 0, a1);
    }
    assert ScannedTo(s, 3, 0, a3) by {
      DigitStep(s, 2, 0, a2);
    }
    FinishScan(s, 0, a3);
    assert a3 == [Number(5, 0), Operation(Div, 0), Number(0, 0)];
  }

  lemma QuotientOfSevenByTwo()
    ensures Nodes.Evaluate(Node(Div, Leaf(7), Leaf(2))) == Success(3)
  {
    var q := TruncDiv(7, 2);
    assert Abs(q) * 2 <= 7 < (Abs(q) + 1) * 2;
  }

  lemma DivisionTruncates(s: string)
    requires |s| == 3 && s[0] == '7' && s[1] == '/' && s[2] == '2'
    ensures Calculate(s) == Success(3)
  {
    var t := [Number(7, 0), Operation(Div, 0), Number(2, 0)];
    assert Scan(s) == Success(t) by { ScanOfSevenOverTwo(s); }
    assert CreateTree(t) == Success(Node(Div, Leaf(7), Leaf(2))) by { OneOperation(7, Div, 2, 0); }
    QuotientOfSevenByTwo();
  }

  lemma DivisionByZeroFails(s: string)
    requires |s| == 3 && s[0] == '5' && s[1] == '/' && s[2] == '0'
    ensures Calculate(s) == Failure(DivideByZero)
  {
    var t := [Number(5, 0), Operation(Div, 0), Number(0, 0)];
    assert Scan(s) == Success(t) by { ScanOfFiveOverZero(s); }
    assert CreateTree(t) == Success(Node(Div, Leaf(5), Leaf(0))) by { OneOperation(5, Div, 0, 0); }
  }

  // ---- Errors: an operator with nothing on its left, and a character outside the notation.

  lemma ScanOfPlusOne(s: string)
    requires |s| == 2 && s[0] == '+' && s[1] == '1'
    ensures Scan(s) == Success([Operation(Add, 0), Number(1, 0)])
  {
    var a0: seq<Token> := [];
    var a1 := a0 + [Operation(Add, 0)];
    var a2 := a1 + [Number(1, 0)];
    assert ScannedTo(s, 1, 0, a1) by {
      StartScan(s);
      OperatorStep(s, 0, 0, a0);
    }
    assert ScannedTo(s, 2, 0, a2) by {
      DigitStep(s, 1, 0, a1);
    }
    FinishScan(s, 0, a2);
    assert a2 == [Operation(Add, 0), Number(1, 0)];
  }

  lemma UnaryPlusFails(s: string)
    requires |s| == 2 && s[0] == '+' && s[1] == '1'
    ensures Calculate(s) == Failure(EmptySequence)
  {
    var t := [Operation(Add, 0), Number(1, 0)];
    assert Scan(s) == Success(t) by { ScanOfPlusOne(s); }
    assert CreateTree(t) == Failure(EmptySequence) by {
      forall j | 0 <= j < |t| ensures t[0].depth <= t[j].depth {
      }
      LeadingOperationFails(t);
    }
  }

  // ---- "-5": there is no unary minus, so a negative number is a leading operator.

  lemma ScanOfMinusFive(s: string)
    requires |s| == 2 && s[0] == '-' && s[1] == '5'
    ensures Scan(s) == Success([Operation(Sub, 0), Number(5, 0)])
  {
    var a0: seq<Token> := [];
    var a1 := a0 + [Operation(Sub, 0)];
    var a2 := a1 + [Number(5, 0)];
    assert ScannedTo(s, 1, 0, a1) by {
      StartScan(s);
      OperatorStep(s, 0, 0, a0);
    }
    assert ScannedTo(s, 2, 0, a2) by {
      DigitStep(s, 1, 0, a1);
    }
    FinishScan(s, 0, a2);
    assert a2 == [Operation(Sub, 0), Number(5, 0)];
  }

  lemma NegativeNumberFails(s: string)
    requires |s| == 2 && s[0] == '-' && s[1] == '5'
    ensures Calculate(s) == Failure(EmptySequence)
  {
    var t := [Operation(Sub, 0), Number(5, 0)];
    assert Scan(s) == Success(t) by { ScanOfMinusFive(s); }
    assert CreateTree(t) == Failure(EmptySequence) by {
      forall j | 0 <= j < |t| ensures t[0].depth <= t[j].depth {
      }
      LeadingOperationFails(t);
    }
  }

  lemma BlanksAreRejected(s: string)
    requires |s| == 5 && s[0] == '1' && s[1] == ' ' && s[2] == '+' && s[3] == ' ' && s[4] == '2'
    ensures Calculate(s) == Failure(UnknownSymbol(' '))
  {
    assert s[..0] == [];
    assert s[0..1] == "1";
    ReadsNumber(s, 0, 1, 1);
    TokensGrow(s, 0, Number(1, 0));
    ScanFailsAt(s, 1);
  }

  // ---- Machine arithmetic: the sum past the largest value wraps to the smallest.

  lemma AdditionWraps()
    ensures Nodes.Evaluate(Node(Add, Leaf(MaxInt32 as Int32), Leaf(1))) == Success(MinInt32 as Int32)
  {
  }

  // ---- The same expressions, written as string literals.

  lemma SumOfProductLiteral()
    ensures Calculate("2+3*4") == Success(14)
  {
    SumOfProduct("2+3*4");
  }

  lemma ProductPlusNumberLiteral()
    ensures Calculate("2*3+4") == Success(10)
  {
    ProductPlusNumber("2*3+4");
  }

  lemma DifferenceOfDifferenceLiteral()
    ensures Calculate("10-2-3") == Success(11)
  {
    DifferenceOfDifference("10-2-3");
  }

  lemma ParenthesesBindFirstLiteral()
    ensures Calculate("(2+3)*4") == Success(20)
  {
    ParenthesesBindFirst("(2+3)*4");
  }

  lemma NestedParenthesesComposeLiteral()
    ensures Calculate("2*(3+(4-1))") == Success(12)
  {
    NestedParenthesesCompose("2*(3+(4-1))");
  }

  lemma JuxtaposedGroupIsDroppedLiteral()
    ensures Calculate("3(1+2)") == Success(3)
  {
    JuxtaposedGroupIsDropped("3(1+2)");
  }

  lemma DeepLeadingOperationIsDroppedLiteral()
    ensures Calculate("(+1)2") == Success(2)
  {
    DeepLeadingOperationIsDropped("(+1)2");
  }

  lemma DivisionTruncatesLiteral()
    ensures Calculate("7/2") == Success(3)
  {
    DivisionTruncates("7/2");
  }

  lemma DivisionByZeroFailsLiteral()
    ensures Calculate("5/0") == Failure(DivideByZero)
  {
    DivisionByZeroFails("5/0");
  }

  lemma UnaryPlusFailsLiteral()
    ensures Calculate("+1") == Failure(EmptySequence)
  {
    UnaryPlusFails("+1");
  }

  lemma BlanksAreRejectedLiteral()
    ensures Calculate("1 + 2") == Failure(UnknownSymbol(' '))
  {
    BlanksAreRejected("1 + 2");
  }

  lemma NegativeNumberFailsLiteral()
    ensures Calculate("-5") == Failure(EmptySequence)
  {
    NegativeNumberFails("-5");
  }
}
