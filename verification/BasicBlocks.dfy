/** The instructions of a basic block: a doubly linked list. The rest of the model sees it as a sequence. */
module BasicBlocks {
  import opened Mir

  class InstructionNode {
    const operation: Operation
    var prev: InstructionNode?
    var next: InstructionNode?

    constructor (operation: Operation)
      ensures this.operation == operation
    {
      this.operation := operation;
    }
  }

  ghost function At(s: seq<InstructionNode>, i: int): InstructionNode? {
    if 0 <= i < |s| then s[i] else null
  }

  ghost predicate Distinct(s: seq<InstructionNode>) {
    forall i, j | 0 <= i < j < |s| :: s[i] != s[j]
  }

  lemma DistinctMore(s: seq<InstructionNode>, node: InstructionNode)
    requires Distinct(s) && node !in s
    ensures Distinct(s + [node]) && Distinct([node] + s)
  {
  }

  /** The last of distinct nodes is not among the others. */
  lemma LastDiffers(s: seq<InstructionNode>)
    requires Distinct(s) && s != []
    ensures forall i | 0 <= i < |s| - 1 :: s[i] != s[|s| - 1]
    ensures forall i | 0 < i < |s| :: s[i] != s[0]
  {
  }

  class BasicBlock {
    var first: InstructionNode?
    var last: InstructionNode?

    ghost var nodes: seq<InstructionNode>

    ghost predicate Valid()
      reads this, nodes
    {
      && first == At(nodes, 0) && last == At(nodes, |nodes| - 1)
      && Distinct(nodes)
      && (forall i {:trigger nodes[i].prev} | 0 <= i < |nodes| :: nodes[i].prev == At(nodes, i - 1))
      && (forall i {:trigger nodes[i].next} | 0 <= i < |nodes| :: nodes[i].next == At(nodes, i + 1))
    }

    constructor ()
      ensures Valid() && nodes == []
    {
      first, last, nodes := null, null, [];
    }

    method Append(instruction: InstructionNode)
      requires Valid() && instruction !in nodes
      modifies this, nodes, instruction
      ensures Valid() && nodes == old(nodes) + [instruction]
    {
      DistinctMore(nodes, instruction);
      if nodes != [] {
        LastDiffers(nodes);
      }
      hide Distinct;
      instruction.prev := last;
      instruction.next := null;
      if last != null {
        last.next := instruction;
      } else {
        first := instruction;
      }
      last := instruction;
      nodes := nodes + [instruction];
    }

    method Prepend(instruction: InstructionNode)
      requires Valid() && instruction !in nodes
      modifies this, nodes, instruction
      ensures Valid() && nodes == [instruction] + old(nodes)
    {
      DistinctMore(nodes, instruction);
      if nodes != [] {
        LastDiffers(nodes);
      }
      hide Distinct;
      instruction.prev := null;
      instruction.next := first;
      if first != null {
        first.prev := instruction;
      } else {
        last := instruction;
      }
      first := instruction;
      nodes := [instruction] + nodes;
    }

    /** The loop by which visitors go through a block. */
    method Operations() returns (code: seq<Operation>)
      requires Valid()
      ensures |code| == |nodes| && forall i | 0 <= i < |nodes| :: code[i] == nodes[i].operation
    {
      code := [];
      var node := first;
      while node != null
        invariant |code| <= |nodes| && node == At(nodes, |code|)
        invariant forall i | 0 <= i < |code| :: code[i] == nodes[i].operation
        decreases |nodes| - |code|
      {
        code := code + [node.operation];
        node := node.next;
      }
    }
  }
}
