# pjit: a verified model of the front end

pjit is the front end of a small just-in-time compiler. A program is written with builder calls (the HIR
macros), which construct a control-flow graph of nested structures in memory (the MIR). MIR has no jumps:
where control goes follows from how the structures are nested. A slab allocator with mark and sweep holds the
objects, and the context collects garbage by traversing the graph. This project models those parts in Dafny
and proves what they are for. `dafny verify dfyconfig.toml` checks everything.

## The parts

**Lowering.** `Mir` and `Hir` hold the graph in memory and the structured source language. `HirToMir` has the
context and the builder classes, `Calls` what one call does to memory, and `Macros` the calls that the macros of a
whole program make. A context keeps a record of the calls made on it, as a ghost field. A `Chain`
(module `Shape`) describes a well-formed piece of graph; `Lowering` says what one call, and a sequence of
calls, does to memory. `Execution` runs a graph block by block and relates that to the source program.
`Laws` says what programs do, without counting iterations.
The main theorem is `Preservation.LoweringPreservesMeaning`: from every state the graph halts if and only if
the program does, and in the same state. It holds of every program. Should a switch repeat a case, the last one
counts, because arms are put at the head of the list (`Preservation.RepeatedCaseDiffers`); that is no choice
exactly when no case is repeated (`Hir.ReadingsAgree`). `Continuation` looks at every moment between two builder
calls instead of at finished programs: from every block the line of control leads to the join or loop header that
encloses it, and in the end to the exit. `Continuation.CompileStepwise` says so of the recorded calls of a
compilation.

**Traversal.** Edges are not stored. While a visitor walks over the graph, *finders* compute the successors
and predecessors of the block at hand. `Edges` gives the visits that a traversal ought to make, as a function
of the shape; `Traversal` has the imperative traversal with its marks and proves that it makes exactly those;
`Reachability` proves that the visited blocks are those that control can reach, each visited once, and that
the reported edges are inverse to each other. They are the edges of the graph if and only if every switch has a
default arm: without one, the edge that skips the switch is not reported (`Edges.SwitchReportsTargets`).
`Order` proves in what order the visits and their reports come, by index and down to every nested construct.

**Memory.** `Pages` and `Allocators` are the page lists and status bits of the slab allocator, with the
address arithmetic in `Layout`. To its clients an allocator is a `Pool`: a set of live objects and a set of
marked ones. `Pointing` and `GarbageCollection` combine traversal and pools: what survives a collection
is what can be reached from the entry, and the graph still stands for the same program. `Ownership` does the
collection once more with seven allocator objects, which decide by themselves what they own.
`GarbageCollection.CompileAndCollect` goes from a program to the collected memory. `Layout.ExampleLayout` is a
layout with numbers. `Sessions` is the life of a context, in which statements are lowered, the graph is traversed
and garbage is collected in any order.

**The rest.** `Vectors` is the vector of slabs of doubling size, `RegisterMachine` the interpreter with
register windows and its Fibonacci program, `WriteInt` the integer output of the logger, `Brackets` the bracket
matching of cpplint, and `BasicBlocks` the instruction list of a block. `Arithmetic` holds facts about division.

## Where the written line misses its intent

* `UnchainPage` reads the field `next` of the previous page; the model reads that of the page itself
  (pjit/containers/allocator.h:220).
* `FreeFromPage` releases an emptied page and only then counts the freed slot, and takes every emptied page off
  the partial list. The model counts first, and takes the page off the list that it is on, which for a page of
  a single slot is the full list (pjit/containers/allocator.h:264-279).
* The predecessor search for the successor of a loop looks for that successor from the loop's condition, which
  has no successor field to follow. As written it finds nothing (`Traversal.LoopExitPredecessorsAsWritten`), so
  that predecessors are exact only for graphs without loops (`Reachability.PredecessorsAsWritten`); the model
  searches for the null pointer, as for the body of the loop (pjit/mir/cfg/loop.cc:72).
* The overload of `Condition` for values that are not boolean never moves to the branch; the model has the
  boolean one (pjit/hir/hir-to-mir.h:361-364). `PJIT_HIR_DEFAULT` closes its own scope at once; the model gives
  a default arm a body, as a case has one (pjit/hir/hir-to-mir.h:473-478).
* A visitor is told from others by its address, and a new visitor may get the address of an old one. Whole
  traversals leave the same visitor in every node that has one, and new nodes have none, so that the entry
  alone decides: a traversal is exact if and only if the entry does not carry the visitor
  (`Sessions.Session.Traverse`). Two collections from the same place on the stack break that: the second one frees
  everything (`GarbageCollection.ManagedContext.CollectTwice`, pjit/mir/context.cc:81).
* The integer output does not write every number back. From twenty decimal or sixteen hexadecimal digits on, the
  search for the first power above the data wraps around, and the least signed number cannot be negated.
  `WriteInt.LimitsAreTight` names these inputs and the ones next to them that are written
  (pjit/base/logging.cc:64-74).

## Model

| member | source | states |
|---|---|---|
| HirToMir.Context.constructor | pjit/mir/context.cc:18-25 | A new context has an entry that leads to the exit, no open builders, and the entry as current block |
| HirToMir.Context.EmitInstruction | pjit/mir/context.cc:44-47 | The instruction is appended to the current block and nothing else changes; there must be a current block |
| HirToMir.Context.LinkSuccessor | pjit/mir/context.cc:95-103 | The new block takes over the continuation of the current block, and becomes its parent if the current block was; nothing else changes |
| HirToMir.Context.LinkCurrent | pjit/mir/context.cc:107-113 | The current block, if there is one, goes on in the linked node, and code goes to the new current block |
| HirToMir.IfStatementBuilder.constructor | pjit/hir/hir-to-mir.cc:20-38 | A conditional and its join are spliced in after the current block; both branches are empty and lead to the join; the open builder is saved |
| HirToMir.IfStatementBuilder.SetCondition | pjit/hir/hir-to-mir.h:361-364 | Records the condition value and moves to the true branch |
| HirToMir.SwitchStatementBuilder.constructor | pjit/hir/hir-to-mir.cc:74-90 | A multi-way branch without arms and its join are spliced in after the current block; the open builder is saved |
| HirToMir.SwitchStatementBuilder.SetCondition | pjit/hir/hir-to-mir.h:444-450 | Records the condition value and leaves no current block |
| HirToMir.CaseStatementBuilder.constructor | pjit/hir/hir-to-mir.cc:47-64 | A new arm is put at the head of the list, leads to the join, and becomes the default if it has no value |
| HirToMir.LoopStatementBuilder.constructor | pjit/hir/hir-to-mir.cc:99-115 | A loop with its back edge, and its join, are spliced in after the current block; code goes to the initialization |
| HirToMir.LoopStatementBuilder.SetCondition | pjit/hir/hir-to-mir.h:504-510 | Records the condition value and moves to the update |
| HirToMir.OpenedInSteps | pjit/hir/hir-to-mir.cc:27-36 | Allocating the join, linking it, allocating the construct and linking that amount to one splice |
| Lowering.LoweredThen | pjit/mir/context.cc:95-113 | Lowering one piece of program and then another is lowering their concatenation, and the two chains join up |
| Lowering.OpenedIfParts | pjit/mir/cfg/conditional.cc:38-48 | In the memory of a new IF both branches are empty and go to the join, and the condition has no successor |
| Lowering.OpenedSwitchParts | pjit/mir/cfg/multi-way-branch.cc:29-36 | A new SWITCH has no arms, and an empty condition without successor |
| Lowering.OpenedLoopParts | pjit/mir/cfg/loop.cc:25-30 | In the memory of a new FOR initialization and update go to the condition, and the body to the update |
| Lowering.LoweredIf | pjit/hir/hir-to-mir.cc:20-44 | Opening an IF and lowering its branches in place amounts to lowering the whole statement |
| Lowering.LoweredFor | pjit/hir/hir-to-mir.cc:99-120 | The same for a FOR and its three parts |
| Lowering.CasesThen | pjit/hir/hir-to-mir.cc:47-64 | An arm put at the head of the list stands for a case after the ones already there |
| Lowering.LoweredSwitch | pjit/hir/hir-to-mir.cc:74-96 | The same for a SWITCH whose arms are in reverse order of its cases |
| Lowering.GraftRealizes | pjit/mir/context.cc:95-113 | When only the last block of a chain changed and grew into another chain, the whole chain is realized and means its old program followed by what was added |
| Macros.Lower | pjit/hir/hir-to-mir.h:395-495 | The builder calls for a program, nested as the macros nest them, lower exactly that program, splice only where a line of control goes on, and restore both builder stacks |
| Macros.LowerIf | pjit/hir/hir-to-mir.h:398-414 | The calls behind IF, ELSE and END_IF lower the statement |
| Macros.LowerSwitch | pjit/hir/hir-to-mir.h:467-494 | The calls behind SWITCH and END_SWITCH lower the statement |
| Macros.LowerCases | pjit/hir/hir-to-mir.h:473-490 | The calls behind CASE and DEFAULT add one arm for each case, in reverse order |
| Macros.LowerFor | pjit/hir/hir-to-mir.h:497-520 | The calls of a loop builder lower the statement |
| Shape.Frame | pjit/mir/context.h:41-46 | A change of memory elsewhere keeps a chain in place and what it stands for |
| Execution.Forward | pjit/mir/context.h:41-46 | When a program evaluates to a state, the chain that stands for it runs to its exit in that state |
| Execution.Backward | pjit/mir/context.h:41-46 | When the chain runs to its exit in finitely many steps, the program evaluates to the same state |
| Execution.ChosenArm | pjit/hir/hir-to-mir.cc:51-62 | Searching the reversed list of arms, or else the default, finds the body that the source selects; without either control goes to the join |
| Execution.EntryIsFirstBlock | pjit/mir/cfg/loop.cc:129-131 | Control enters a construct at the block that its `VisitFirst` reports |
| Execution.BlockGoesOn | pjit/mir/cfg/sequential.cc:22-48 | After its code a block goes on in its successor, in the condition of a successor that is a construct, or in the initialization of a loop |
| Execution.ConditionGoesOn | pjit/mir/context.h:41-46 | On a value other than zero the condition of an IF goes to the first branch and that of a FOR to the body; on zero to the second branch and to the block after the loop |
| Execution.SwitchGoesOn | pjit/mir/context.h:41-46 | The condition of a SWITCH goes to the arm at the least index of the list with the value read; if there is none, to the default arm, or else to the join |
| Execution.GraphMeansProgram | pjit/mir/context.h:41-46 | A whole graph halts in a state if and only if the program that it stands for does |
| Preservation.Compile | pjit/mir/context.cc:18-25 | Lowering a program in a new context makes a proper graph that stands for exactly that program, by an orderly run of calls |
| Preservation.LoweringPreservesMeaning | pjit/hir/hir-to-mir.cc:15-120 | From every state the lowered graph halts if and only if the program does, and in the same state |
| Laws.CodeInOrder | pjit/hir/hir-to-mir.h:395-495 | Operations are executed from the first one to the last |
| Laws.SequenceHalts | pjit/hir/hir-to-mir.h:395-495 | A statement and a program after it halt in a state exactly if the statement halts in some state from which the program does |
| Laws.EmitHalts | pjit/hir/hir-to-mir.h:395-495 | An emitted operation does what the target machine does |
| Laws.IfHalts | pjit/hir/hir-to-mir.h:398-414 | IF halts as its first branch does from where the condition leaves off if the value is not zero, and else as its second branch does |
| Laws.EmptySwitchHalts | pjit/hir/hir-to-mir.h:467-494 | SWITCH without cases only evaluates its condition |
| Laws.SwitchHalts | pjit/hir/hir-to-mir.h:467-494 | Which case of a SWITCH counts, case by case: the last one with the value, or the last default if no case has the value |
| Laws.ForHalts | pjit/hir/hir-to-mir.h:497-520 | The initialization of a FOR runs once, before everything else |
| Laws.LoopHalts | pjit/hir/hir-to-mir.h:497-520 | A FOR ends on a condition of zero, and otherwise runs its body, then its update, and begins again |
| Laws.HaltsOnce | pjit/hir/hir-to-mir.h:395-520 | A program halts in at most one state, whatever number of iterations is allowed for |
| Preservation.RepeatedCaseDiffers | pjit/hir/hir-to-mir.cc:51-62 | For any list of case values with a repetition there is a switch on which every graph that stands for it runs another case than the first one |
| Hir.ReadingsAgree | pjit/hir/hir-to-mir.cc:47-64 | For a list of case values it never matters, whatever the bodies, whether the first or the last matching case is taken, if and only if no value is repeated |
| Hir.RepeatedKeyTells | pjit/hir/hir-to-mir.cc:51-62 | For any repeated value, or repeated default, there are bodies and a number for which it matters |
| Preservation.DefaultsInSource | pjit/hir/hir-to-mir.h:473-478 | Every switch of a graph has a default arm if and only if every switch of its program has one |
| Continuation.SpliceKeepsContinuation | pjit/mir/context.cc:95-113 | A splice loses no continuation: the join goes on where the current block did, and every other block where it did |
| Continuation.SpliceKeepsLeads | pjit/mir/context.cc:95-113 | A splice interrupts no line of control: what led to a block still leads there |
| Continuation.CallKeepsInvariant | pjit/hir/hir-to-mir.cc:20-120 | Every builder call keeps the invariant that the line of control falls in rank towards the exit |
| Continuation.CallKeepsHomes | pjit/hir/hir-to-mir.cc:20-120 | Every builder call keeps every block's line of control leading home |
| Continuation.RunKeepsInvariant | pjit/hir/hir-to-mir.cc:20-120 | The first invariant holds at every moment of every orderly run of calls |
| Continuation.EveryBlockLeadsHome | pjit/hir/hir-to-mir.cc:20-120 | After any prefix of any orderly run of calls, the line of control of every branch, arm and condition leads to the join of its construct, that of an initialization and update to the loop's condition, and that of a body to the update (the home is read off memory as well: the join of the parent for branches, arms and conditions, the condition for initialization and update, the update for the body) |
| Continuation.JoinInherits | pjit/mir/context.cc:95-103 | A join has the home of the block that it is spliced in after |
| Continuation.HomesStay | pjit/mir/context.cc:95-113 | Later calls change no block's home |
| Continuation.EveryBlockLeadsToExit | pjit/hir/hir-to-mir.cc:20-120 | After any prefix of any orderly run of calls, from every block the line of control leads to the exit |
| Continuation.RunPassesOut | pjit/mir/cfg/sequential.cc:22-48 | A run that halts passes the block that is next on the line of control, having run the construct in between |
| Continuation.ConditionPassesOut | pjit/mir/cfg/conditional.cc:38-48 | From the condition of a construct a run that halts passes the block after the construct |
| Continuation.CompileStepwise | pjit/hir/hir-to-mir.h:395-520 | At every moment of the compilation of any program, every line of control leads home and to the exit |
| BasicBlocks.BasicBlock.Append | pjit/mir/cfg/basic-block.cc:20-31 | The list gains one instruction at its end and stays doubly linked |
| BasicBlocks.BasicBlock.Prepend | pjit/mir/cfg/basic-block.cc:34-45 | The list gains one instruction at its head and stays doubly linked |
| BasicBlocks.BasicBlock.Operations | pjit/mir/visitors/garbage-collect/visit.cc:60-60 | The visitors' loop over a block sees every instruction once, in order |
| Edges.StepsAreEdges | pjit/mir/cfg/finder.cc:43-49 | Control only ever goes along the edges of the graph |
| Edges.EdgesAreSteps | pjit/mir/cfg/finder.cc:43-49 | Conversely there is a machine that goes along each edge; for the arms of a switch, along exactly those that are taken |
| Edges.SwitchStepsAreTaken | pjit/hir/hir-to-mir.cc:51-62 | A switch only ever goes to the first arm in the list with some value, to the default arm, or without one to the join |
| Edges.DistinctArmsTaken | pjit/hir/hir-to-mir.cc:51-62 | If no value is repeated, all edges of a switch are taken |
| Edges.SwitchReportsTargets | pjit/mir/cfg/finder.cc:73-77 | The successors reported for the condition of a switch are all its successors but the edge that skips the switch, which is missing exactly when there is no default arm |
| Edges.TraceReportsTargets | pjit/mir/cfg/finder.cc:43-77 | Every visit reports exactly the successors of its block, if and only if every switch has a default arm |
| Edges.TraceVisitsOnce | pjit/mir/cfg/sequential.cc:22-48 | A traversal visits every block of a chain once and no other block |
| Edges.TraceBalanced | pjit/mir/cfg/finder.cc:59-90 | Over any chain, the edges reported as successors and those reported as predecessors are the same up to the edges at its ends |
| Order.TraceOrdered | pjit/mir/cfg/sequential.cc:22-48 | By index: a block is visited before all that follows it, and all of a construct before what follows the construct, for every piece of a graph, however deeply nested |
| Order.ConstructInOrder | pjit/mir/cfg/loop.cc:33-78 | By index: the condition of an IF before its first branch before its second one; the condition of a SWITCH before its arms in list order; of a FOR the initialization, the body, the update and then the condition |
| Order.ArmsVisitedInOrder | pjit/mir/cfg/multi-way-branch.cc:53-64 | For any switch in memory and i < j, every visit to a block of the chain at entry i of its list comes before every visit to a block of the chain at entry j |
| Order.NodeHasPart | pjit/mir/context.cc:62-64 | Every construct in memory is among the pieces that come in order |
| Order.ConditionReports | pjit/mir/cfg/finder.cc:43-77 | The condition of every construct in memory is visited and reports its successors in order: both branches, the arms of the list, or the body and the block after the loop |
| Order.JoinReports | pjit/mir/cfg/finder.cc:59-90 | The block after every construct reports the last blocks of the branches, or of the arms in list order, as its predecessors, and after a FOR the condition |
| Reachability.ReportsAreInverse | pjit/mir/cfg/finder.cc:43-90 | For any two visits of a whole traversal, one reports the other as successor if and only if the other reports it as predecessor |
| Reachability.PredecessorIsVisited | pjit/mir/cfg/finder.cc:59-90 | Every reported predecessor is a visited block, which reports the edge as a successor |
| Reachability.PredecessorsAreExact | pjit/mir/cfg/finder.cc:59-90 | Every visit reports as predecessors exactly the blocks from which control can come, if and only if every switch has a default arm |
| Reachability.PredecessorsAsWritten | pjit/mir/cfg/loop.cc:69-77 | With the search behind a loop as it is written, the reported predecessors are exact if and only if every switch has a default arm and there is no FOR |
| Reachability.LoopIsLeft | pjit/mir/cfg/loop.cc:54-57 | The condition of every loop in a graph is one of its blocks, and the block after the loop is one of its targets |
| Reachability.TargetsInside | pjit/mir/cfg/finder.cc:43-77 | Edges stay inside a chain, but for those of its last block |
| Reachability.ChainReached | pjit/mir/cfg/sequential.cc:22-48 | Control can reach every block of a chain from its first one |
| Reachability.TraversalIsExact | pjit/mir/cfg/control-flow-graph.h:61-67 | Blocks that control can reach from the entry are visited exactly once and others never; every visit reports exactly its block's successors if and only if every switch has a default arm |
| Traversal.VisitPredecessor | pjit/mir/cfg/sequential.cc:88-95 | The walk from a branch reports exactly its last block when it searches for the branch's exit, and nothing else, stepping over nested constructs |
| Traversal.Find | pjit/mir/cfg/finder.cc:43-90 | A finder reports the first blocks, or the predecessors, of each of its nodes in order |
| Traversal.LoopExitPredecessorsAsWritten | pjit/mir/cfg/loop.cc:72-72 | As written, the search for the predecessors of a loop's successor reports nothing |
| Traversal.ArmsYield | pjit/mir/cfg/finder.cc:73-90 | The finders over arms report the first, or the last, block of every arm in list order |
| Traversal.Graph.ShouldVisit | pjit/mir/cfg/control-flow-graph.h:61-67 | True exactly when the node did not carry the visitor's mark, which it carries afterwards |
| Traversal.Graph.VisitSequential | pjit/mir/cfg/sequential.cc:22-48 | A blocked node is left alone; from an unmarked one the whole chain is visited and marked, and the finders are restored |
| Traversal.Graph.VisitConditional | pjit/mir/cfg/conditional.cc:30-66 | Condition, both branches and what follows are visited in order, with the right edges, and marked; the finders are restored |
| Traversal.Graph.VisitMultiWay | pjit/mir/cfg/multi-way-branch.cc:39-76 | The same for a switch and all arms in its list, which come in list order, after the condition and before what follows |
| Traversal.Graph.VisitArms | pjit/mir/cfg/multi-way-branch.cc:53-64 | The loop over the arms visits each with the join blocked, and unblocks the join; by index, every visit to a block of an earlier arm comes before every visit to one of a later arm |
| Traversal.Graph.VisitLoop | pjit/mir/cfg/loop.cc:33-78 | The same for a loop, whose condition is blocked while its parts are visited, so that the back edge is not followed |
| Traversal.VisitPreOrder | pjit/mir/context.cc:62-64 | From the entry, with a visitor stored in no node of the graph, the traversal ends, has made exactly the specified visits, with exact successors and predecessors if and only if every switch has a default arm, has visited each block that control can reach exactly once, has marked exactly the nodes of the graph, and has restored both finders; the visits to the blocks of every piece of the graph come in order |
| Traversal.VisitAgain | pjit/mir/cfg/control-flow-graph.h:61-67 | A visitor that is stored in the entry visits nothing |
| Pointing.GraphIsReachable | pjit/mir/context.cc:62-64 | The nodes of a graph are exactly those that pointers lead to from the entry |
| Pointing.LastIsUnique | pjit/mir/cfg/conditional.cc:113-122 | Of the nodes of a branch only its last block continues at the join |
| GarbageCollection.ReachedIsGraph | pjit/mir/context.cc:81-82 | What can be reached in memory are the nodes of the graph |
| GarbageCollection.VisitedIsReached | pjit/mir/visitors/garbage-collect/visit.cc:59-69 | The visited blocks hold all the code, and mention all the symbols, of the reachable nodes |
| GarbageCollection.ControlReaches | pjit/mir/context.cc:81-82 | The blocks that control reaches from the entry are the blocks in reachable memory |
| GarbageCollection.CodeKept | pjit/mir/visitors/garbage-collect/visit.cc:59-69 | By index: an instruction is kept exactly if it is one of those of a block that control reaches |
| GarbageCollection.SymbolKept | pjit/mir/visitors/garbage-collect/visit.cc:59-69 | By index: a symbol is kept exactly if it is an operand, the first one or a later one, of an instruction of a block that control reaches |
| GarbageCollection.ObjectHeld | pjit/mir/visitors/garbage-collect/visit.cc:23-56 | The objects that nodes hold of each kind are those nodes of that kind that are objects of their own |
| GarbageCollection.ArmHeld | pjit/mir/visitors/garbage-collect/visit.cc:39-48 | By index: the arms that nodes hold are the entries of the lists of the switches among them |
| GarbageCollection.GraphOwned | pjit/mir/visitors/garbage-collect/visit.cc:23-56 | Every node of a built graph is part of the context, or of an object or arm of the graph that is marked |
| GarbageCollection.ManagedContext.MarkNode | pjit/mir/visitors/garbage-collect/visit.cc:23-56 | Marks the object of a node in the allocator for its kind, and the arms of a switch; parts of other objects are not marked |
| GarbageCollection.ManagedContext.MarkBlock | pjit/mir/visitors/garbage-collect/visit.cc:59-69 | Marks the instructions of a block and the symbols among their operands |
| GarbageCollection.ManagedContext.MarkReachable | pjit/mir/context.cc:81-82 | The mark phase marks exactly the objects of the nodes that the visitor gets to see: those that can be reached, or none |
| GarbageCollection.ManagedContext.CollectPools | pjit/mir/context.cc:72-91 | In every allocator exactly the live objects survive that can be reached from the entry; none survives if the visitor is stored in the entry |
| GarbageCollection.ManagedContext.CollectSeen | pjit/mir/context.cc:72-91 | Where every object of the memory is live, exactly what the visitor gets to see stays live |
| GarbageCollection.ManagedContext.GarbageCollect | pjit/mir/context.cc:72-91 | The same, for instructions and symbols by block, place in its code and place among the operands, and every node that can be reached is unchanged, so the graph stands for the same program |
| GarbageCollection.GraphSurvives | pjit/mir/context.cc:72-91 | When the objects of a graph survive, so do all its nodes, unchanged |
| GarbageCollection.CollectionPreservesMeaning | pjit/mir/context.cc:72-91 | In the memory that a collection leaves, the graph halts in the same states as before |
| Ownership.OfferOne | pjit/mir/visitors/garbage-collect/visit.cc:23-28 | An allocator marks the object at an address if it owns it, and else ignores the address |
| Ownership.CollectOwned | pjit/containers/allocator.h:74-107 | After a whole cycle of one allocator exactly the live objects at the addresses offered to it stay live |
| Ownership.KeptOneByOne | pjit/mir/visitors/garbage-collect/visit.cc:23-69 | What each of the seven allocators is to keep, object by object: reachable nodes by kind, and by index the arms, instructions and operands |
| Ownership.LeftOneByOne | pjit/containers/allocator.h:84-96 | An object that was live is left exactly if its address is among those of its allocator |
| Ownership.PartsIgnored | pjit/mir/visitors/garbage-collect/visit.cc:23-28 | Nodes that are parts of objects of other allocators make no difference |
| Ownership.GarbageCollect | pjit/mir/context.cc:72-91 | With seven allocators that share no page, exactly the live objects that can be reached from the entry stay live in each; if all that the graph holds was live, exactly that is what is left, and the graph in the memory that is left is a proper one for the same program |
| Ownership.GraphIsLeft | pjit/mir/context.cc:72-91 | Where live objects are exactly at the addresses that the graph holds, the memory of the live nodes and arms has the whole graph in it |
| Sessions.Session.Traverse | pjit/mir/context.cc:62-64 | After any sequence of lowerings, traversals and exact collections, and with any visitor, a traversal makes all its visits and sees all nodes if and only if the entry does not carry the visitor; if it does, nothing is visited |
| Sessions.Session.Collect | pjit/mir/context.cc:72-91 | After any such sequence and with any visitor, exactly what the graph holds stays live in each pool; nothing does if the entry carries the visitor |
| Sessions.Session.LowerMore | pjit/mir/context.cc:107-113 | Statements may be lowered after traversals; the graph grows into one for the concatenated program, and marks stay as they are |
| Sessions.Session.GraphOf | pjit/mir/cfg/control-flow-graph.h:61-67 | After any such sequence the graph is a proper one for all statements lowered, and each visitor is stored in its entry or in none of its nodes |
| Sessions.SettledThen | pjit/mir/cfg/control-flow-graph.cc:20-23 | Lowering more keeps the marks of the graph uniform, since new nodes carry none |
| Sessions.SettledMarked | pjit/mir/cfg/control-flow-graph.h:61-67 | A traversal leaves uniform marks, one of them in the entry |
| Layout.BeginInside | pjit/containers/allocator.h:172-176 | Objects begin within the slab, for every size and alignment |
| Layout.NoWrap | pjit/containers/allocator.h:172-181 | The size computation never wraps around, and the slots end within the slab |
| Layout.EstimateSuffices | pjit/containers/allocator.h:185-189 | The assertion that the estimate is large enough holds of every type |
| Layout.SlotRoundTrip | pjit/containers/allocator.h:201-215 | Every slot is aligned and lies in its slab behind the meta-data; its address determines slab and slot number |
| Layout.SlotsDisjoint | pjit/containers/allocator.h:176-181 | No two slots share a byte |
| Layout.SlabIsFilled | pjit/containers/allocator.h:146-181 | Sizes and offsets are tight: the estimate, the rounded meta-data, the first aligned offset, and the number of objects, of which one more would not fit |
| Layout.AddressesInSlab | pjit/containers/allocator.h:201-215 | The slots follow one another from the first offset on, and every address belongs to the aligned slab that it lies in |
| Pages.UnchainPage | pjit/containers/allocator.h:218-233 | The page is taken off the list, which stays a doubly linked list of the others in order |
| Pages.ChainPage | pjit/containers/allocator.h:236-243 | The page is put at the head of the list |
| Pages.CountUpdate | pjit/containers/allocator.h:249-251 | Changing one slot changes the number of allocated slots by what that slot changed |
| Pages.UnmarkPages | pjit/containers/allocator.h:331-339 | On every page of a list the reachable bits of allocated slots are cleared |
| Pages.SweepPages | pjit/containers/allocator.h:307-321 | On every page of a list the allocated slots without reachable bit are freed, and the counters agree |
| Allocators.Allocator.Allocate | pjit/containers/allocator.h:46-50 | Always succeeds with the lowest slot that is not live on the first partial page, or with slot 0 of the new slab if there is no partial page; every other object keeps its slot and bits |
| Allocators.FindFree | pjit/containers/allocator.h:287-291 | The search finds the first free slot of a page that has one |
| Allocators.Allocator.AddPage | pjit/containers/allocator.h:283-285 | Without partial pages a new page becomes the only one |
| Allocators.Allocator.AllocateFromPage | pjit/containers/allocator.h:248-261 | The slot becomes live; a page that is now full moves to the head of the full list, and otherwise the lists stay |
| Allocators.Allocator.MapSlab | pjit/containers/allocator.h:207-215 | A new slab is empty, and is held at an address of its own |
| Allocators.Allocator.Free | pjit/containers/allocator.h:52-63 | Exactly the argument stops being live, and its slab is given back exactly when it was the last live object there; a null pointer is ignored |
| Allocators.Allocator.FreeFromPage | pjit/containers/allocator.h:264-279 | Exactly the object in the slot stops being live. The slab is given back exactly when no live object is on it any more, and no other slab ever; the lists stay sorted by whether pages have free slots; a page that was full moves to the head of the partial list |
| Allocators.Allocator.OwnsObject | pjit/containers/allocator.h:102-107 | True exactly for non-null addresses in a slab of this allocator, and so for every live object |
| Allocators.Allocator.MarkAllUnreachable | pjit/containers/allocator.h:74-77 | No live object stays marked, and the lists stay well-formed |
| Allocators.Allocator.MarkReachable | pjit/containers/allocator.h:79-82 | Exactly one object more is marked |
| Allocators.Allocator.FreeUnreachable | pjit/containers/allocator.h:84-96 | Exactly the live objects that are marked stay live, and afterwards again a page is on the full list exactly when it has no free slot |
| Allocators.Allocator.MoveAllSwept | pjit/containers/allocator.h:88-95 | The loop over the full list moves every page with a free slot to the partial list |
| Allocators.Allocator.Collect | pjit/containers/allocator.h:74-96 | After a whole cycle the live set is the old one intersected with the set of marked objects |
| Allocators.AgreeSweep | pjit/containers/allocator.h:307-321 | Sweeping status bits is intersecting the live set with the marked one |
| Vectors.GenericVector.Get | pjit/containers/vector.cc:126-165 | Ends for every index and returns the address of the element; elements that had an address keep it; nothing is allocated for an index already covered; a further slab is made only when the object would not fit the newest one |
| Vectors.SlabIsFilled | pjit/containers/vector.cc:74-92 | Of every slab: its indices begin where those of the one before end, its objects at the first aligned address behind the meta-data, and it has all the objects that its 2^n pages have room for |
| Vectors.NoRoom | pjit/containers/vector.cc:155-161 | An index beyond those of a slab would have its object beyond the memory of the slab |
| Vectors.GenericVector.AllocateSlab | pjit/containers/vector.cc:65-98 | A slab has 2^n pages and an index for every object that fits behind its aligned meta-data: one more would not fit |
| Vectors.GenericVector.Search | pjit/containers/vector.cc:132-139 | The walk stops at the slab that has the index, or at the newest slab when none has |
| Vectors.GenericVector.Cover | pjit/containers/vector.cc:131-162 | The outer loop ends with a slab that has the index, even when the first slabs hold no object at all |
| Vectors.ElementsAreDisjoint | pjit/containers/vector.cc:84-93 | Different indices have storage that does not overlap |
| Vectors.ElementsAreAligned | pjit/containers/vector.cc:84-90 | Every element is aligned, if the alignment divides the object size and the page size |
| Vectors.SlabsCover | pjit/containers/vector.cc:84-92 | n slabs cover at least 2^n - 1 indices |
| Vectors.SlabBound | pjit/containers/vector.cc:126-162 | After requests up to index N there are k slabs only if 2^(k-1) <= N + 1 |
| Vectors.WordsSuffice | pjit/containers/vector.cc:74-92 | No 32-bit computation of slab sizes and indices overflows while indices stay below 2^19 |
| RegisterMachine.Eval | lang/basic-register-machine.cc:136-167 | The interpreter loop returns what the semantics of the bytecode says, and leaves the register file as it says |
| RegisterMachine.InstructionsRun | lang/basic-register-machine.cc:136-167 | What each instruction does to the registers of its frame, and where execution goes on; a call runs in the next frame and stores its result |
| RegisterMachine.FuelSuffices | lang/basic-register-machine.cc:136-167 | The outcome of a run does not depend on how long one is ready to wait |
| RegisterMachine.WindowsAreIsolated | lang/basic-register-machine.cc:20-35 | For every program, a run gives the same when its part of the register file is embedded anywhere in a larger one, whose other registers it neither reads nor writes |
| RegisterMachine.FibRuns | lang/basic-register-machine.cc:120-133 | On a window of its own the program returns fib(i) if the window has room, and otherwise runs off its end |
| RegisterMachine.FibonnaciIsCorrect | lang/basic-register-machine.cc:109-133 | Wherever its frame lies, the program ends and returns fib(i), and touches only the window that begins at its frame |
| RegisterMachine.SpaceIsNeeded | lang/basic-register-machine.cc:158-161 | With a smaller window the program leaves the register file |
| RegisterMachine.SpaceBound | lang/basic-register-machine.cc:106-106 | The window is at most 8 * max(1, i) registers, and fits the static register file exactly for i up to 120 |
| RegisterMachine.FibFits | lang/basic-register-machine.cc:109-117 | fib(i) fits a signed 32-bit integer exactly for i up to 45 |
| RegisterMachine.FibValues | lang/basic-register-machine.cc:109-117 | fib(45) = 1836311903 and fib(46) = 2971215073 |
| RegisterMachine.EvalFib | lang/basic-register-machine.cc:243-244 | Setting the argument and evaluating is a run of the bytecode, which returns fib(i) and leaves all registers outside the window alone |
| WriteInt.WriteGenericInt | pjit/base/logging.cc:41-86 | What is written parses back to the sign-extended value if and only if the value is within the limits of the base, and then has no leading zero; the text is the prefix, the sign and digits that are, one by one, those of the magnitude |
| WriteInt.DigitAt | pjit/base/logging.cc:75-83 | Of k digits that read as n, the i-th one is the character at n / base^(k-1-i) % base of 0123456789abcdef |
| WriteInt.MeaningIsCongruent | pjit/base/logging.cc:57-62 | The value of a word is itself, or the number within the range of its signed type that is congruent to it |
| WriteInt.FindMaxBase | pjit/base/logging.cc:73-74 | The search for the first power above the data never wraps around for data within the limit; beyond it, hexadecimal powers become zero |
| WriteInt.WriteDigits | pjit/base/logging.cc:75-83 | From an exact power the digits of the number are written, the first one not zero; in any case no more than there is room for |
| WriteInt.TooShort | pjit/base/logging.cc:75-83 | Nineteen characters cannot stand for a decimal number of twenty digits |
| Brackets.FindEndOfExpressionInLine | dependencies/cpplint/cpplint.py:1218-1239 | The position after the first closing bracket that brings the depth to zero, or the depth at the end of the line |
| Brackets.CloseExpression | dependencies/cpplint/cpplint.py:1242-1286 | Finds the bracket that matches in the joined text, not before the line of the opening one, or fails exactly when none matches; the two are ( and ), [ and ], { and }, or < and > |
| Brackets.FindStartOfExpressionInLine | dependencies/cpplint/cpplint.py:1289-1312 | The position of the last opening bracket that brings the depth to zero, or the depth at the beginning of the line |
| Brackets.ReverseCloseExpression | dependencies/cpplint/cpplint.py:1315-1357 | Finds the bracket that matches in the joined text, not behind the line of the closing one, or fails exactly when none matches, for the same four pairs |
| Brackets.MatchesBrackets | dependencies/cpplint/cpplint.py:1259-1266 | What matches is an opening bracket and its closing one |
| Brackets.MatchIsUnique | dependencies/cpplint/cpplint.py:1242-1357 | A bracket matches at most one other on either side |
| Brackets.MatchesCounts | dependencies/cpplint/cpplint.py:1218-1312 | Two places match exactly if the text from one through the other has as many closing as opening brackets, and every shorter piece of it has fewer |
| Brackets.LevelCounts | dependencies/cpplint/cpplint.py:1218-1312 | The depth is the number of opening brackets less that of closing ones |
| Brackets.CloseThenOpen | dependencies/cpplint/cpplint.py:1242-1357 | From whatever close the forward search may answer, any answer of the backward search is the line and column of the bracket that one began with |
| Brackets.OpenThenClose | dependencies/cpplint/cpplint.py:1242-1357 | The other way round, any answer of the forward search is the place just past the bracket that one began with |
| Brackets.ClosesAsJoined | dependencies/cpplint/cpplint.py:1270-1286 | An answer of the forward search line by line is the answer of one search of the joined text, at its offset, or both fail |
| Brackets.OpensAsJoined | dependencies/cpplint/cpplint.py:1340-1357 | The same for the backward search |

## Left out

- Post-order traversal: its sequential and loop versions call the pre-order visitor, so no order is fixed
  (pjit/mir/cfg/sequential.cc:51-77, pjit/mir/cfg/loop.cc:81-123).
- Graph nodes as objects of their own: nodes contain one another, and pointers point into them, so the memory of
  a context is a map from addresses (an object and a member of it) to records, which the methods reassign. The list of
  arms is a sequence, since its links never change. The mark `last_visitor` is a second map.
- Addresses in the builders come from a counter; that allocation gives addresses not in use is proved separately,
  of the allocator.
- The destructors of the builders, and the calls between the parts of a FOR, are single assignments (`Close`,
  `InitDone`, `UpdateDone`); what they are for is part of the contracts in `Macros`.
- Macros.LowerCases: gives DEFAULT a body, which the macro as written closes at once.
- Traversal.Graph.VisitLoop: has the predecessors of the block after a loop as intended, not as line 72 is written.
- Traversal.VisitPreOrder: requires that the visitor is stored in no node of the graph. `Traversal.VisitAgain` has
  the entry carry it, and `Sessions.Session.GraphOf` says that whole traversals between statements allow nothing else.
  A traversal while a construct is still open is not modelled.
- GarbageCollection.ManagedContext.MarkReachable: marks after the traversal what the source marks in the callbacks
  during it.
- GarbageCollection.ManagedContext.GarbageCollect: has pools for allocators, which are sets. `Ownership.GarbageCollect`
  has the allocators.
- Ownership.GarbageCollect: lets each allocator mark and sweep in turn, and has a visitor that is new. Where the nodes of
  a graph lie is a parameter; `Preservation.Compile` has addresses from a counter.
- Sessions.Session.Collect: does not take freed memory away from the session, and says of a collection by a visitor that
  the entry carries, which frees the graph, only what it frees.
- The survival of the symbols in `conditional_value` and of the values of arms: the mark phase does not visit them,
  so only the operands of instructions keep a symbol alive.
- Conditions are straight-line code: no construct can be opened while a condition is being evaluated.
- Instructions are abstract transformers of a state; types, conversions and the typed operators are not modelled.
- Object construction and destruction, memory poisoning, page protection and the system calls behind pages: a new
  page is fresh, aligned memory. `FreeAll` and `Visit` of the allocator, and the slab cache of the vector.
- Vectors.GenericVector.Get: does not construct elements. Its numbers are unbounded; `Vectors.WordsSuffice` says for
  which indices that makes no difference. New slabs lie above older ones.
- RegisterMachine.Eval: registers hold unbounded integers, and a program that leaves the code or the register file
  has no defined outcome; the source does not define signed overflow either.
- WriteInt.WriteGenericInt: has bases 10 and 16, the only ones in use; the buffer is a string.
- Log formatting, DOT output, type information, symbol tables, the rest of cpplint.
