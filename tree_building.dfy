/**
 * Building the expression tree from the scanned nodes: pick the weakest-binding node,
 * split the sequence around it and build both sides the same way.
 */
module TreeBuilding {
  import opened Results
  import opened MachineInt
  import opened Nodes

  /** `a` sorts strictly before `b` when nodes are ordered by depth, then by priority. */
  predicate Precedes(a: Token, b: Token) {
    a.depth < b.depth || (a.depth == b.depth && a.Priority() < b.Priority())
  }

  /**
   * `k` is the node a stable sort by depth, then priority, puts first:
   * no node sorts before it, and every node to its left sorts after it.
   */
  predicate IsWeakest(nodes: seq<Token>, k: nat) {
    k < |nodes| &&
    (forall j :: 0 <= j < |nodes| ==> !Precedes(nodes[j], nodes[k])) &&
    (forall j :: 0 <= j < k ==> Precedes(nodes[k], nodes[j]))
  }

  /** The weakest node has the least depth of all, and the least priority among the nodes at that depth. */
  lemma WeakestIsMinimal(nodes: seq<Token>, k: nat)
    requires IsWeakest(nodes, k)
    ensures forall j :: 0 <= j < |nodes| ==> nodes[k].depth <= nodes[j].depth
    ensures forall j :: 0 <= j < |nodes| && nodes[j].depth == nodes[k].depth ==> nodes[k].Priority() <= nodes[j].Priority()
  {
  }

  /** At most one position is the weakest, so the choice is determined by the nodes alone. */
  lemma WeakestIsUnique(nodes: seq<Token>, k1: nat, k2: nat)
    requires IsWeakest(nodes, k1) && IsWeakest(nodes, k2)
    ensures k1 == k2
  {
    var first, second := nodes[k1], nodes[k2];
    assert k1 < k2 ==> Precedes(second, first);
    assert k2 < k1 ==> Precedes(first, second);
  }

  /** The position of the first node of the stable ordering by depth, then priority; empty input fails. */
  function GetLowestPriorityOf(nodes: seq<Token>): (r: Result<nat>)
    ensures r.Failure? <==> nodes == []
    ensures r.Failure? ==> r.error == EmptySequence
    ensures r.Success? ==> IsWeakest(nodes, r.value)
  {
    if |nodes| == 0 then Failure(EmptySequence)
    else if |nodes| == 1 then Success(0)
    else
      var k := GetLowestPriorityOf(nodes[..|nodes| - 1]).value;
      if Precedes(nodes[|nodes| - 1], nodes[k]) then Success(|nodes| - 1) else Success(k)
  }

  /** The nodes with their depth tags cleared. */
  function Erased(nodes: seq<Token>): (r: seq<Token>)
    ensures |r| == |nodes|
    ensures forall i :: 0 <= i < |nodes| ==> r[i] == nodes[i].(depth := 0)
  {
    seq(|nodes|, i requires 0 <= i < |nodes| => nodes[i].(depth := 0))
  }

  /** The in-order reading of a tree, each node at depth zero. */
  function Flatten(t: Tree): (r: seq<Token>)
    ensures |r| == Size(t)
  {
    match t
    case Leaf(v) => [Number(v, 0)]
    case Node(kind, left, right) => Flatten(left) + [Operation(kind, 0)] + Flatten(right)
  }

  lemma ErasedSplit(nodes: seq<Token>, k: nat)
    requires k < |nodes|
    ensures Erased(nodes) == Erased(nodes[..k]) + [nodes[k].(depth := 0)] + Erased(nodes[k + 1..])
  {
    assert Erased(nodes) == Erased(nodes[..k]) + [nodes[k].(depth := 0)] + Erased(nodes[k + 1..]);
  }

  /**
   * The tree whose root is the weakest node, with the nodes before it on the left and the nodes after it
   * on the right. A weakest number becomes the whole tree and the other nodes are dropped.
   * The tree never has more nodes than the input, and when it has as many it reads back as the input.
   */
  function CreateTree(nodes: seq<Token>): (r: Result<Tree>)
    ensures nodes == [] ==> r.Failure?
    ensures r.Failure? ==> r.error == EmptySequence
    ensures r.Success? ==> Size(r.value) <= |nodes|
    ensures r.Success? && Size(r.value) == |nodes| ==> Flatten(r.value) == Erased(nodes)
    decreases |nodes|
  {
    var k :- GetLowestPriorityOf(nodes);
    match nodes[k]
    case Number(v, _) => Success(Leaf(v))
    case Operation(kind, _) =>
      var left :- CreateTree(nodes[..k]);
      var right :- CreateTree(nodes[k + 1..]);
      ErasedSplit(nodes, k);
      Success(Node(kind, left, right))
  }

  /**
   * The split rule: whatever position is the weakest becomes the root; a number there is the whole tree,
   * an operation there owns the trees built from exactly the nodes before it and exactly the nodes after it.
   */
  lemma RootIsWeakest(nodes: seq<Token>, k: nat)
    requires IsWeakest(nodes, k)
    ensures nodes[k].Number? ==> CreateTree(nodes) == Success(Leaf(nodes[k].value))
    ensures nodes[k].Operation? ==>
              (CreateTree(nodes).Success? <==> CreateTree(nodes[..k]).Success? && CreateTree(nodes[k + 1..]).Success?)
    ensures nodes[k].Operation? && CreateTree(nodes).Success? ==>
              CreateTree(nodes).value == Node(nodes[k].kind, CreateTree(nodes[..k]).value, CreateTree(nodes[k + 1..]).value)
  {
    var chosen := GetLowestPriorityOf(nodes);
    WeakestIsUnique(nodes, k, chosen.value);
    assert chosen == Success(k);
    if nodes[k].Operation? {
      var left, right := CreateTree(nodes[..k]), CreateTree(nodes[k + 1..]);
      if left.Success? && right.Success? {
        assert CreateTree(nodes) == Success(Node(nodes[k].kind, left.value, right.value));
      } else {
        assert CreateTree(nodes).Failure?;
      }
    }
  }

  /** Numbers and operations alternate, starting and ending with a number. */
  predicate Alternating(nodes: seq<Token>) {
    |nodes| % 2 == 1 && forall i :: 0 <= i < |nodes| ==> (nodes[i].Number? <==> i % 2 == 0)
  }

  /** Alternating, and no operation is nested deeper than either number beside it. */
  predicate WellNested(nodes: seq<Token>) {
    Alternating(nodes) &&
    forall i :: 0 < i < |nodes| - 1 && nodes[i].Operation? ==>
      nodes[i].depth <= nodes[i - 1].depth && nodes[i].depth <= nodes[i + 1].depth
  }

  /** In a well-nested sequence of more than one node the weakest node is an operation. */
  lemma WeakestOfWellNested(nodes: seq<Token>, k: nat)
    requires WellNested(nodes) && |nodes| > 1 && IsWeakest(nodes, k)
    ensures nodes[k].Operation? && k % 2 == 1
  {
    var j := if k > 0 then k - 1 else k + 1;
    assert nodes[k].Number? ==> Precedes(nodes[j], nodes[k]);
  }

  /** Both sides of a split at an operation of a well-nested sequence are well nested. */
  lemma WellNestedSides(nodes: seq<Token>, k: nat)
    requires WellNested(nodes) && k < |nodes| && k % 2 == 1
    ensures WellNested(nodes[..k]) && WellNested(nodes[k + 1..])
  {
    var left, right := nodes[..k], nodes[k + 1..];
    assert |left| % 2 == 1;
    assert |right| % 2 == 1;
    forall i | 0 <= i < |right|
      ensures right[i] == nodes[k + 1 + i] && (right[i].Number? <==> i % 2 == 0)
    {
      assert (k + 1 + i) % 2 == i % 2;
    }
  }

  /** A well-nested sequence always builds, every node is used, and the tree reads back as the input. */
  lemma {:induction false} WellNestedBuilds(nodes: seq<Token>)
    requires WellNested(nodes)
    ensures CreateTree(nodes).Success?
    ensures Size(CreateTree(nodes).value) == |nodes|
    ensures Flatten(CreateTree(nodes).value) == Erased(nodes)
    decreases |nodes|
  {
    var k := GetLowestPriorityOf(nodes).value;
    if |nodes| > 1 {
      WeakestOfWellNested(nodes, k);
      WellNestedSides(nodes, k);
      WellNestedBuilds(nodes[..k]);
      WellNestedBuilds(nodes[k + 1..]);
    }
  }

  /** One depth, one priority: numbers at even positions, operations of priority `p` at odd ones. */
  predicate FlatChain(nodes: seq<Token>, d: int, p: int) {
    Alternating(nodes) &&
    forall i :: 0 <= i < |nodes| ==> nodes[i].depth == d && (nodes[i].Operation? ==> nodes[i].Priority() == p)
  }

  /** Dropping the first number and operation of an alternating sequence leaves it alternating. */
  lemma AlternatingTail(nodes: seq<Token>)
    requires Alternating(nodes) && |nodes| > 1
    ensures Alternating(nodes[2..])
  {
    forall i | 0 <= i < |nodes| - 2
      ensures nodes[2..][i].Number? <==> i % 2 == 0
    {
      assert nodes[2..][i] == nodes[i + 2];
    }
  }

  /** `n0 op1 (n1 op2 (n2 ...))`: the grouping to the right. */
  function RightNested(nodes: seq<Token>): Tree
    requires Alternating(nodes)
    decreases |nodes|
  {
    if |nodes| == 1 then Leaf(nodes[0].value)
    else
      AlternatingTail(nodes);
      Node(nodes[1].kind, Leaf(nodes[0].value), RightNested(nodes[2..]))
  }

  /** In a flat chain the first operation is the weakest node. */
  lemma FirstOperationIsWeakest(nodes: seq<Token>, d: int, p: int)
    requires FlatChain(nodes, d, p) && |nodes| > 1
    ensures IsWeakest(nodes, 1)
  {
    var op := nodes[1];
    assert op.Operation? && op.Priority() < NumberPriority;
    forall j | 0 <= j < |nodes| ensures !Precedes(nodes[j], op) {
      var other := nodes[j];
      assert other.depth == d && (other.Operation? ==> other.Priority() == p);
    }
    assert Precedes(op, nodes[0]);
  }

  lemma FlatChainTail(nodes: seq<Token>, d: int, p: int)
    requires FlatChain(nodes, d, p) && |nodes| > 1
    ensures FlatChain(nodes[2..], d, p)
  {
    AlternatingTail(nodes);
    forall i | 0 <= i < |nodes| - 2
      ensures nodes[2..][i] == nodes[i + 2]
    {
    }
  }

  /** Operations of equal priority at one depth group to the right: the leftmost one becomes the root. */
  lemma {:induction false} SamePrecedenceGroupsRight(nodes: seq<Token>, d: int, p: int)
    requires FlatChain(nodes, d, p)
    ensures CreateTree(nodes) == Success(RightNested(nodes))
    decreases |nodes|
  {
    if |nodes| > 1 {
      FirstOperationIsWeakest(nodes, d, p);
      RootIsWeakest(nodes, 1);
      var first := nodes[..1];
      assert first == [nodes[0]];
      assert IsWeakest(first, 0);
      RootIsWeakest(first, 0);
      FlatChainTail(nodes, d, p);
      SamePrecedenceGroupsRight(nodes[2..], d, p);
    }
  }

  /** The node at `i` is at the smallest depth of the sequence. */
  predicate AtLowestDepth(nodes: seq<Token>, i: nat)
    requires i < |nodes|
  {
    forall j :: 0 <= j < |nodes| ==> nodes[i].depth <= nodes[j].depth
  }

  /** An operation first in the sequence and at its lowest depth leaves one side empty somewhere: building fails. */
  lemma {:induction false} LeadingOperationFails(nodes: seq<Token>)
    requires |nodes| > 0 && nodes[0].Operation? && AtLowestDepth(nodes, 0)
    ensures CreateTree(nodes).Failure?
    decreases |nodes|
  {
    var k := GetLowestPriorityOf(nodes).value;
    if k > 0 {
      assert !Precedes(nodes[0], nodes[k]);
      assert nodes[k].Operation?;
      LeadingOperationFails(nodes[..k]);
    }
  }

  /** The same for an operation last in the sequence. */
  lemma {:induction false} TrailingOperationFails(nodes: seq<Token>)
    requires |nodes| > 0 && nodes[|nodes| - 1].Operation? && AtLowestDepth(nodes, |nodes| - 1)
    ensures CreateTree(nodes).Failure?
    decreases |nodes|
  {
    var k := GetLowestPriorityOf(nodes).value;
    var last := |nodes| - 1;
    assert !Precedes(nodes[last], nodes[k]);
    assert nodes[k].Operation?;
    RootIsWeakest(nodes, k);
    if k < last {
      var right := nodes[k + 1..];
      assert right[|right| - 1] == nodes[last];
      TrailingOperationFails(right);
    }
  }

  /** Two adjacent operations at the lowest depth make building fail. */
  lemma {:induction false} AdjacentOperationsFail(nodes: seq<Token>, i: nat)
    requires i + 1 < |nodes|
    requires nodes[i].Operation? && nodes[i + 1].Operation?
    requires AtLowestDepth(nodes, i) && nodes[i + 1].depth == nodes[i].depth
    ensures CreateTree(nodes).Failure?
    decreases |nodes|
  {
    var k := GetLowestPriorityOf(nodes).value;
    assert nodes[k].Operation? by { assert !Precedes(nodes[i], nodes[k]); }
    var left, right := nodes[..k], nodes[k + 1..];
    RootIsWeakest(nodes, k);
    if k == i {
      assert CreateTree(right).Failure? by {
        assert right[0] == nodes[i + 1];
        LeadingOperationFails(right);
      }
    } else if k == i + 1 {
      assert CreateTree(left).Failure? by {
        assert left[|left| - 1] == nodes[i];
        TrailingOperationFails(left);
      }
    } else if k < i {
      assert CreateTree(right).Failure? by {
        assert right[i - k - 1] == nodes[i] && right[i - k] == nodes[i + 1];
        AdjacentOperationsFail(right, i - k - 1);
      }
    } else {
      assert CreateTree(left).Failure? by { AdjacentOperationsFail(left, i); }
    }
  }

  /** A number below every other node's depth is the whole tree; everything else is dropped. */
  lemma ShallowNumberIsTheTree(nodes: seq<Token>, i: nat)
    requires i < |nodes| && nodes[i].Number?
    requires forall j :: 0 <= j < |nodes| && j != i ==> nodes[i].depth < nodes[j].depth
    ensures CreateTree(nodes) == Success(Leaf(nodes[i].value))
  {
    var k := GetLowestPriorityOf(nodes).value;
    assert !Precedes(nodes[i], nodes[k]);
  }
}
