/** The in-memory form of the medium-level IR: the records that make up a control-flow graph and
    the memory that holds them.

    Several blocks are members of the object that contains them (the condition of an IF, the body
    of a FOR), so an address is a pair: the base address of an object and the member it selects. */
module Mir {

  datatype Option<+T> = None | Some(value: T)

  /** An operand is a null pointer, a symbol or a structure field (a union in the source). */
  datatype Operand = NoOperand | SymbolOperand(symbol: nat) | FieldOperand(field: nat)

  datatype Operation = Operation(opcode: nat, operands: seq<Operand>)

  /** An instruction object and the address at which it was allocated. */
  datatype Instruction = Instruction(address: nat, operation: Operation)

  datatype Member = Whole | Condition | IfTrue | IfFalse | Init | Update | Body | Entry | Exit

  datatype Ref = Ref(base: nat, member: Member)

  /** `value` is the symbol that the condition of a branch leaves its result in. */
  datatype Content =
    | Sequential(code: seq<Instruction>, successor: Option<Ref>)
    | Conditional(value: Option<nat>, join: Ref)
    | MultiWay(value: Option<nat>, arms: seq<ArmEntry>, defaultArm: Option<nat>, join: Ref)
    | Loop(value: Option<nat>, join: Ref)

  /** One entry of a list of arms: the address of the arm and the value it stands for. The block
      of the arm is its member IfTrue. An arm without a value is the default. */
  datatype ArmEntry = ArmEntry(base: nat, key: Option<int>)

  datatype Node = Node(parent: Option<Ref>, content: Content)

  type Heap = map<Ref, Node>

  const CONTEXT: nat := 0
  const ENTRY := Ref(CONTEXT, Entry)
  const EXIT := Ref(CONTEXT, Exit)

  predicate IsBlock(h: Heap, r: Ref) {
    r in h && h[r].content.Sequential?
  }

  /** The entry block of a graph node: where control arrives when it flows into `r`. */
  function FirstBlock(h: Heap, r: Ref): Ref {
    if r !in h then r
    else match h[r].content
      case Sequential(_, _) => r
      case Conditional(_, _) => Ref(r.base, Condition)
      case MultiWay(_, _, _, _) => Ref(r.base, Condition)
      case Loop(_, _) => Ref(r.base, Init)
  }

  /** The bare operations of a block, without the addresses of its instructions. */
  function Operations(code: seq<Instruction>): seq<Operation> {
    seq(|code|, i requires 0 <= i < |code| => code[i].operation)
  }
}
