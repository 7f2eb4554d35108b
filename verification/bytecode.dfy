/** The instruction set (`ByteCodeInstruction`) and the assembled program
    (`byte_code`): a flat instruction sequence plus the label table. */
module Bytecode {
  import Int32
  import Identifier

  datatype Instruction =
    | LoadVal(value: int)
    | WriteVar(name: string)
    | ReadVar(name: string)
    | Add
    | Sub
    | Multiply
    | Divide
    | Cmp(operand: int)
    | Jmp(target: string)
    | JmpLe(target: string)
    | ReturnValue

  /** `labels` maps a label to the value the loader stored for it: one more
      than the index of the instruction the label designates. */
  datatype Program = Program(code: seq<Instruction>, labels: map<string, nat>)

  /** What any instruction the loader emits satisfies: integer operands fit
      an `i32` and variable names are normalised identifiers. */
  predicate WellFormed(i: Instruction) {
    match i
    case LoadVal(n) => Int32.InRange(n)
    case Cmp(n) => Int32.InRange(n)
    case WriteVar(x) => Identifier.IsLowerName(x)
    case ReadVar(x) => Identifier.IsLowerName(x)
    case _ => true
  }

  predicate WellFormedCode(code: seq<Instruction>) {
    forall k :: 0 <= k < |code| ==> WellFormed(code[k])
  }

  /** The opcode token that spells each instruction. */
  function Opcode(i: Instruction): string {
    match i
    case LoadVal(_) => "LOAD_VAL"
    case WriteVar(_) => "WRITE_VAR"
    case ReadVar(_) => "READ_VAR"
    case Add => "ADD"
    case Sub => "SUB"
    case Multiply => "MULTIPLY"
    case Divide => "DIVIDE"
    case Cmp(_) => "CMP"
    case Jmp(_) => "JMP"
    case JmpLe(_) => "JMP_LE"
    case ReturnValue => "RETURN_VALUE"
  }

  /** The canonical source line of an instruction, as tokens. */
  function Encode(i: Instruction): seq<string> {
    match i
    case LoadVal(n) => [Opcode(i), Int32.ShowInt(n)]
    case Cmp(n) => [Opcode(i), Int32.ShowInt(n)]
    case WriteVar(x) => [Opcode(i), Identifier.Quote(x)]
    case ReadVar(x) => [Opcode(i), Identifier.Quote(x)]
    case Jmp(l) => [Opcode(i), l]
    case JmpLe(l) => [Opcode(i), l]
    case _ => [Opcode(i)]
  }
}
