/** The loader, `read_file_to_bytecode` after the file has been read: each
    line, already cut into whitespace-separated tokens, is decoded into an
    instruction or a label definition, the instructions are appended in
    order, labels are recorded in the label table, and the finished sequence
    must hold exactly one `RETURN_VALUE`, at the end. Loading stops at the
    first bad line and returns no program. */
module Loader {
  import opened Wrappers
  import opened Bytecode
  import Int32
  import Identifier
  import Tokenizer

  datatype LoadError =
    | UnknownOpcode(opcode: string)
      /** the operand count the opcode needs, and the whole offending line */
    | WrongArity(operands: nat, tokens: seq<string>)
    | BadInteger(tokens: seq<string>)
    | BadVariable(reason: Identifier.VariableError)
    | NoReturnValue
    | MisplacedReturnValue

  /** A non-blank line decodes to an instruction or to a label definition. */
  datatype Line = Emit(instr: Instruction) | Mark(name: string)

  const Opcodes: set<string> := {
    "LOAD_VAL", "WRITE_VAR", "READ_VAR", "CMP", "JMP", "JMP_LE", "LABEL",
    "ADD", "SUB", "MULTIPLY", "DIVIDE", "RETURN_VALUE"
  }

  /** The number of tokens a line with opcode `op` must have, opcode included. */
  function Arity(op: string): nat {
    if op in {"LOAD_VAL", "WRITE_VAR", "READ_VAR", "CMP", "JMP", "JMP_LE", "LABEL"} then 2 else 1
  }

  /** `check_length`; the error reports the operand count, one less than the
      expected token count. */
  function CheckLength(tokens: seq<string>, expected: nat): (r: Result<(), LoadError>)
    requires expected >= 1
    ensures r.Ok? <==> |tokens| == expected
    ensures r.Err? ==> r.error == WrongArity(expected - 1, tokens)
  {
    if |tokens| != expected then Err(WrongArity(expected - 1, tokens)) else Ok(())
  }

  function IntegerOperand(tokens: seq<string>): (r: Result<int, LoadError>)
    requires |tokens| == 2
    ensures r.Ok? ==> Int32.InRange(r.value) && Int32.ParseI32(tokens[1]) == Some(r.value)
    ensures r.Err? <==> Int32.ParseI32(tokens[1]).None?
    ensures r.Err? ==> r.error == BadInteger(tokens)
  {
    match Int32.ParseI32(tokens[1])
    case Some(n) => Ok(n)
    case None => Err(BadInteger(tokens))
  }

  function VariableOperand(tokens: seq<string>): (r: Result<string, LoadError>)
    requires |tokens| == 2
    ensures r.Ok? <==> Identifier.IsQuotedName(tokens[1])
    ensures r.Ok? ==> Identifier.IsLowerName(r.value) && r.value == Identifier.Lower(tokens[1][1..|tokens[1]| - 1])
    ensures r.Err? ==> r.error == BadVariable(Identifier.ValidVariable(tokens[1]).error)
  {
    match Identifier.ValidVariable(tokens[1])
    case Ok(x) => Ok(x)
    case Err(e) => Err(BadVariable(e))
  }

  /** Whether a line defines label `l`. */
  predicate Marks(tokens: seq<string>, l: string) {
    |tokens| == 2 && tokens[0] == "LABEL" && tokens[1] == l
  }

  /** One non-blank line: the opcode is looked up first, then the token
      count is checked, then the operand is parsed. Jump targets and label
      names are taken verbatim and cannot fail. */
  function DecodeLine(tokens: seq<string>): (r: Result<Line, LoadError>)
    requires |tokens| > 0
    ensures tokens[0] !in Opcodes ==> r == Err(UnknownOpcode(tokens[0]))
    ensures tokens[0] in Opcodes && |tokens| != Arity(tokens[0]) ==>
              r == Err(WrongArity(Arity(tokens[0]) - 1, tokens))
    ensures r.Ok? ==> tokens[0] in Opcodes && |tokens| == Arity(tokens[0])
    ensures r.Ok? && r.value.Emit? ==> WellFormed(r.value.instr) && Opcode(r.value.instr) == tokens[0]
    ensures (r.Ok? && r.value.Mark?) <==> tokens[0] == "LABEL" && |tokens| == 2
    ensures r.Ok? && r.value.Mark? ==> Marks(tokens, r.value.name)
    ensures tokens[0] in Opcodes - {"LOAD_VAL", "CMP", "WRITE_VAR", "READ_VAR"} ==>
              (r.Ok? <==> |tokens| == Arity(tokens[0]))
  {
    match tokens[0]
    case "LOAD_VAL" =>
      var _ :- CheckLength(tokens, 2);
      var n :- IntegerOperand(tokens);
      Ok(Emit(LoadVal(n)))
    case "WRITE_VAR" =>
      var _ :- CheckLength(tokens, 2);
      var x :- VariableOperand(tokens);
      Ok(Emit(WriteVar(x)))
    case "READ_VAR" =>
      var _ :- CheckLength(tokens, 2);
      var x :- VariableOperand(tokens);
      Ok(Emit(ReadVar(x)))
    case "CMP" =>
      var _ :- CheckLength(tokens, 2);
      var n :- IntegerOperand(tokens);
      Ok(Emit(Cmp(n)))
    case "JMP" =>
      var _ :- CheckLength(tokens, 2);
      Ok(Emit(Jmp(tokens[1])))
    case "JMP_LE" =>
      var _ :- CheckLength(tokens, 2);
      Ok(Emit(JmpLe(tokens[1])))
    case "ADD" =>
      var _ :- CheckLength(tokens, 1);
      Ok(Emit(Add))
    case "SUB" =>
      var _ :- CheckLength(tokens, 1);
      Ok(Emit(Sub))
    case "MULTIPLY" =>
      var _ :- CheckLength(tokens, 1);
      Ok(Emit(Multiply))
    case "DIVIDE" =>
      var _ :- CheckLength(tokens, 1);
      Ok(Emit(Divide))
    case "RETURN_VALUE" =>
      var _ :- CheckLength(tokens, 1);
      Ok(Emit(ReturnValue))
    case "LABEL" =>
      var _ :- CheckLength(tokens, 2);
      Ok(Mark(tokens[1]))
    case _ =>
      Err(UnknownOpcode(tokens[0]))
  }

  /** What a two-token line decodes to. A `LOAD_VAL` or `CMP` line fails
      exactly when its operand is not an `i32`, and otherwise carries the
      parsed value; a `WRITE_VAR` or `READ_VAR` line fails exactly when
      `valid_variable` rejects its operand, and otherwise carries the quoted
      body, lower-cased; jump targets and label names are kept verbatim. */
  lemma DecodeOperands(tokens: seq<string>)
    requires |tokens| == 2
    ensures tokens[0] in {"LOAD_VAL", "CMP"} ==> (DecodeLine(tokens).Ok? <==> Int32.ParseI32(tokens[1]).Some?)
    ensures tokens[0] in {"LOAD_VAL", "CMP"} && Int32.ParseI32(tokens[1]).None? ==>
              DecodeLine(tokens) == Err(BadInteger(tokens))
    ensures tokens[0] == "LOAD_VAL" && Int32.ParseI32(tokens[1]).Some? ==>
              DecodeLine(tokens) == Ok(Emit(LoadVal(Int32.ParseI32(tokens[1]).value)))
    ensures tokens[0] == "CMP" && Int32.ParseI32(tokens[1]).Some? ==>
              DecodeLine(tokens) == Ok(Emit(Cmp(Int32.ParseI32(tokens[1]).value)))
    ensures tokens[0] in {"WRITE_VAR", "READ_VAR"} ==> (DecodeLine(tokens).Ok? <==> Identifier.IsQuotedName(tokens[1]))
    ensures tokens[0] in {"WRITE_VAR", "READ_VAR"} && !Identifier.IsQuotedName(tokens[1]) ==>
              DecodeLine(tokens) == Err(BadVariable(Identifier.ValidVariable(tokens[1]).error))
    ensures tokens[0] == "WRITE_VAR" && Identifier.IsQuotedName(tokens[1]) ==>
              DecodeLine(tokens) == Ok(Emit(WriteVar(Identifier.Lower(tokens[1][1..|tokens[1]| - 1]))))
    ensures tokens[0] == "READ_VAR" && Identifier.IsQuotedName(tokens[1]) ==>
              DecodeLine(tokens) == Ok(Emit(ReadVar(Identifier.Lower(tokens[1][1..|tokens[1]| - 1]))))
    ensures tokens[0] == "JMP" ==> DecodeLine(tokens) == Ok(Emit(Jmp(tokens[1])))
    ensures tokens[0] == "JMP_LE" ==> DecodeLine(tokens) == Ok(Emit(JmpLe(tokens[1])))
    ensures tokens[0] == "LABEL" ==> DecodeLine(tokens) == Ok(Mark(tokens[1]))
  {
  }

  /** Decoding the canonical spelling of a well-formed instruction gives the
      instruction back. */
  lemma DecodeEncode(i: Instruction)
    requires WellFormed(i)
    ensures DecodeLine(Encode(i)) == Ok(Emit(i))
  {
    if i.LoadVal? || i.Cmp? {
      DecodeEncodeNumber(i);
    } else if i.WriteVar? || i.ReadVar? {
      DecodeEncodeVariable(i);
    }
  }

  /** The case of `DecodeEncode` for the instructions with an `i32` operand. */
  lemma DecodeEncodeNumber(i: Instruction)
    requires WellFormed(i) && (i.LoadVal? || i.Cmp?)
    ensures DecodeLine(Encode(i)) == Ok(Emit(i))
  {
    Int32.ParseShow(if i.LoadVal? then i.value else i.operand);
  }

  /** The case of `DecodeEncode` for the instructions with a variable. */
  lemma DecodeEncodeVariable(i: Instruction)
    requires WellFormed(i) && (i.WriteVar? || i.ReadVar?)
    ensures DecodeLine(Encode(i)) == Ok(Emit(i))
  {
    Identifier.ValidQuote(i.name);
  }

  /** Whatever a line decodes to, its canonical spelling decodes to the same
      instruction: the decoder forgets only the spelling. */
  lemma EncodeDecode(tokens: seq<string>)
    requires |tokens| > 0 && DecodeLine(tokens).Ok? && DecodeLine(tokens).value.Emit?
    ensures DecodeLine(Encode(DecodeLine(tokens).value.instr)) == DecodeLine(tokens)
  {
    DecodeEncode(DecodeLine(tokens).value.instr);
  }

  /** The loader's running state: the instructions emitted so far, the label
      table, and `inst_count`. */
  datatype Assembly = Assembly(code: seq<Instruction>, labels: map<string, nat>, instCount: nat)

  /** One line of the loop. A non-blank line first bumps the count; a label
      definition then records the bumped count and takes it back, so the
      count stays the number of instructions emitted. */
  function AssembleLine(a: Assembly, tokens: seq<string>): (r: Result<Assembly, LoadError>)
    requires a.instCount == |a.code|
    ensures r.Ok? ==> r.value.instCount == |r.value.code|
  {
    if |tokens| == 0 then Ok(a)
    else
      var count := a.instCount + 1;
      var line :- DecodeLine(tokens);
      match line
      case Emit(i) => Ok(Assembly(a.code + [i], a.labels, count))
      case Mark(l) => Ok(Assembly(a.code, a.labels[l := count], count - 1))
  }

  /** The loop over all lines, stopping at the first error. Every emitted
      instruction is well formed, and every label stores a value between 1
      and one more than the number of instructions. */
  function Assemble(lines: seq<seq<string>>): (r: Result<Assembly, LoadError>)
    ensures r.Ok? ==> r.value.instCount == |r.value.code|
    ensures r.Ok? ==> WellFormedCode(r.value.code)
    ensures r.Ok? ==> forall l :: l in r.value.labels ==> 1 <= r.value.labels[l] <= |r.value.code| + 1
  {
    if |lines| == 0 then Ok(Assembly([], map[], 0))
    else
      var a :- Assemble(lines[..|lines| - 1]);
      AssembleLine(a, lines[|lines| - 1])
  }

  /** The position of the first `RETURN_VALUE`, as `Iterator::position`. */
  function FirstReturn(code: seq<Instruction>): (r: Option<nat>)
    ensures r.Some? ==> r.value < |code| && code[r.value] == ReturnValue
    ensures r.Some? ==> forall k :: 0 <= k < r.value ==> code[k] != ReturnValue
    ensures r.None? ==> forall k :: 0 <= k < |code| ==> code[k] != ReturnValue
  {
    if |code| == 0 then None
    else if code[0] == ReturnValue then Some(0)
    else match FirstReturn(code[1..])
      case None => None
      case Some(k) => Some(k + 1)
  }

  /** The loaded-program rule: the last instruction is `RETURN_VALUE` and no
      other instruction is. */
  predicate ReturnIsLast(code: seq<Instruction>) {
    && |code| > 0
    && code[|code| - 1] == ReturnValue
    && forall k :: 0 <= k < |code| - 1 ==> code[k] != ReturnValue
  }

  /** The check after the loop: fail when there is no `RETURN_VALUE`, and
      when the first one is not the last instruction. */
  function CheckReturn(code: seq<Instruction>): (r: Result<(), LoadError>)
    ensures r.Ok? <==> ReturnIsLast(code)
    ensures r == Err(NoReturnValue) <==> forall k :: 0 <= k < |code| ==> code[k] != ReturnValue
  {
    match FirstReturn(code)
    case None => Err(NoReturnValue)
    case Some(k) => if k != |code| - 1 then Err(MisplacedReturnValue) else Ok(())
  }

  /** `read_file_to_bytecode` on lines already split into tokens. */
  function Load(lines: seq<seq<string>>): (r: Result<Program, LoadError>)
    ensures r.Ok? ==> ReturnIsLast(r.value.code)
    ensures r.Ok? ==> WellFormedCode(r.value.code)
    ensures r.Ok? ==> forall l :: l in r.value.labels ==> 1 <= r.value.labels[l] <= |r.value.code| + 1
  {
    var a :- Assemble(lines);
    var _ :- CheckReturn(a.code);
    Ok(Program(a.code, a.labels))
  }

  /** `read_file_to_bytecode` on the text lines, split as `split_whitespace`. */
  function LoadText(text: seq<string>): Result<Program, LoadError> {
    Load(seq(|text|, k requires 0 <= k < |text| => Tokenizer.SplitWhitespace(text[k])))
  }
}
