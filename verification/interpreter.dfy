/** The interpreter, `execute`: a fetch-decode-execute loop over an integer
    stack, a variable table and a program counter. The loop runs while the
    counter is inside the program and then returns `res`, the value taken by
    the most recent `RETURN_VALUE` (0 before any). Because a program with a
    backward jump may loop for ever, the loop is modelled as a single `Step`
    and a `Run` bounded by fuel. */
module Interpreter {
  import opened Wrappers
  import opened Bytecode
  import Int32

  /** The loop's variables: `inst_num`, the stack `v` (top at the end),
      `variable_to_value` and `res`. */
  datatype Machine = Machine(pc: nat, stack: seq<int>, vars: map<string, int>, res: int)

  const Initial: Machine := Machine(0, [], map[], 0)

  /** The errors `execute` returns as `Err`. */
  datatype Fault =
    | StackUnderflow(site: PopSite)
    | UnboundVariable(name: string)
    | UnknownLabel(target: string)
    | DivideByZero

  /** Which pop found the stack empty, with what its message names: the
      variable for `WRITE_VAR`, the operand for `CMP`, nothing for the
      operands of `JMP_LE` and the arithmetic instructions, and the result
      for `RETURN_VALUE`. */
  datatype PopSite = AtWrite(name: string) | AtCmp(operand: int) | AtOperand | AtReturn

  /** The conditions under which `execute` panics instead (as built for
      debugging): `i32` overflow, and a label value of 0, which would make
      `inst_num -= 1` underflow. `i32::MIN / -1` panics in every build. */
  datatype Panic = Overflow | PcUnderflow

  datatype Stop = Raised(fault: Fault) | Panicked(panic: Panic)

  datatype Outcome = Finished(value: int) | Failed(fault: Fault) | Aborted(panic: Panic) | OutOfFuel

  function Top(s: seq<int>): int
    requires |s| > 0
  {
    s[|s| - 1]
  }

  function Below(s: seq<int>): seq<int>
    requires |s| > 0
  {
    s[..|s| - 1]
  }

  /** How many values each instruction pops when it succeeds. */
  function Pops(i: Instruction): nat {
    match i
    case Add => 2
    case Sub => 2
    case Multiply => 2
    case Divide => 2
    case WriteVar(_) => 1
    case Cmp(_) => 1
    case JmpLe(_) => 1
    case ReturnValue => 1
    case _ => 0
  }

  /** The pop an instruction reports when the stack runs out. */
  function SiteOf(i: Instruction): PopSite {
    match i
    case WriteVar(x) => AtWrite(x)
    case Cmp(n) => AtCmp(n)
    case ReturnValue => AtReturn
    case _ => AtOperand
  }

  predicate IsUnderflow(r: Result<Machine, Stop>) {
    r.Err? && r.error.Raised? && r.error.fault.StackUnderflow?
  }

  /** How many values each instruction pushes when it succeeds. */
  function Pushes(i: Instruction): nat {
    match i
    case LoadVal(_) => 1
    case ReadVar(_) => 1
    case Cmp(_) => 1
    case Add => 1
    case Sub => 1
    case Multiply => 1
    case Divide => 1
    case _ => 0
  }

  /** Whether the instruction at the counter transfers control to a label:
      always for `JMP`, and for `JMP_LE` when the value on top is negative. */
  predicate TakesJump(p: Program, m: Machine)
    requires m.pc < |p.code|
  {
    var i := p.code[m.pc];
    i.Jmp? || (i.JmpLe? && |m.stack| > 0 && Top(m.stack) < 0)
  }

  function JumpTarget(p: Program, m: Machine): string
    requires m.pc < |p.code| && TakesJump(p, m)
  {
    p.code[m.pc].target
  }

  /** Push an arithmetic result, which must fit an `i32`. */
  function PushChecked(m: Machine, v: int): Result<Machine, Stop> {
    if Int32.InRange(v) then Ok(m.(stack := m.stack + [v])) else Err(Panicked(Overflow))
  }

  /** The counter after a jump to `target`: the stored value less one, with
      no increment at the end of the iteration. */
  function JumpTo(p: Program, m: Machine, target: string): Result<Machine, Stop> {
    if target !in p.labels then Err(Raised(UnknownLabel(target)))
    else if p.labels[target] == 0 then Err(Panicked(PcUnderflow))
    else Ok(m.(pc := p.labels[target] - 1))
  }

  /** One iteration of the loop. An underflow fault happens exactly when
      there are fewer values than the instruction pops, except that `DIVIDE`
      checks its divisor before popping the dividend. */
  function Step(p: Program, m: Machine): Result<Machine, Stop>
    requires m.pc < |p.code|
  {
    var s := m.stack;
    var next := m.pc + 1;
    match p.code[m.pc]
    case LoadVal(n) =>
      Ok(m.(pc := next, stack := s + [n]))
    case WriteVar(x) =>
      if |s| == 0 then Err(Raised(StackUnderflow(AtWrite(x))))
      else Ok(m.(pc := next, stack := Below(s), vars := m.vars[x := Top(s)]))
    case ReadVar(x) =>
      if x !in m.vars then Err(Raised(UnboundVariable(x)))
      else Ok(m.(pc := next, stack := s + [m.vars[x]]))
    case Cmp(n) =>
      if |s| == 0 then Err(Raised(StackUnderflow(AtCmp(n))))
      else PushChecked(m.(pc := next, stack := Below(s)), Top(s) - n)
    case Jmp(l) =>
      JumpTo(p, m, l)
    case JmpLe(l) =>
      if |s| == 0 then Err(Raised(StackUnderflow(AtOperand)))
      else if Top(s) < 0 then JumpTo(p, m.(stack := Below(s)), l)
      else Ok(m.(pc := next, stack := Below(s)))
    case Add =>
      if |s| < 2 then Err(Raised(StackUnderflow(AtOperand)))
      else PushChecked(m.(pc := next, stack := s[..|s| - 2]), s[|s| - 1] + s[|s| - 2])
    case Multiply =>
      if |s| < 2 then Err(Raised(StackUnderflow(AtOperand)))
      else PushChecked(m.(pc := next, stack := s[..|s| - 2]), Int32.Mul(s[|s| - 1], s[|s| - 2]))
    case Sub =>
      if |s| < 2 then Err(Raised(StackUnderflow(AtOperand)))
      else PushChecked(m.(pc := next, stack := s[..|s| - 2]), s[|s| - 2] - s[|s| - 1])
    case Divide =>
      if |s| == 0 then Err(Raised(StackUnderflow(AtOperand)))
      else if Top(s) == 0 then Err(Raised(DivideByZero))
      else if |s| < 2 then Err(Raised(StackUnderflow(AtOperand)))
      else PushChecked(m.(pc := next, stack := s[..|s| - 2]), Int32.TruncDiv(s[|s| - 2], s[|s| - 1]))
    case ReturnValue =>
      if |s| == 0 then Err(Raised(StackUnderflow(AtReturn)))
      else Ok(m.(pc := next, stack := Below(s), res := Top(s)))
  }

  /** An iteration fails with a stack underflow exactly when the instruction
      needs more values than the stack holds, except that `DIVIDE` on a lone
      0 reports the zero divisor first. The fault names the instruction's
      pop site. A successful iteration had all the values it pops. */
  lemma StepUnderflow(p: Program, m: Machine)
    requires m.pc < |p.code|
    ensures IsUnderflow(Step(p, m)) <==>
              |m.stack| < Pops(p.code[m.pc]) && !(p.code[m.pc] == Divide && |m.stack| == 1 && Top(m.stack) == 0)
    ensures IsUnderflow(Step(p, m)) ==> Step(p, m) == Err(Raised(StackUnderflow(SiteOf(p.code[m.pc]))))
    ensures Step(p, m).Ok? ==> Pops(p.code[m.pc]) <= |m.stack|
  {
    match p.code[m.pc]
    case Jmp(l) =>
      assert Step(p, m) == JumpTo(p, m, l);
    case JmpLe(l) =>
      if |m.stack| > 0 && Top(m.stack) < 0 {
        assert Step(p, m) == JumpTo(p, m.(stack := Below(m.stack)), l);
      }
    case _ =>
  }

  /** A jump sets the counter to the label's value less one; a missing label
      is an error and a stored 0 a counter underflow. */
  lemma JumpToSpec(p: Program, m: Machine, target: string)
    ensures JumpTo(p, m, target).Ok? <==> target in p.labels && p.labels[target] >= 1
    ensures JumpTo(p, m, target).Ok? ==> JumpTo(p, m, target).value == m.(pc := p.labels[target] - 1)
    ensures target !in p.labels ==> JumpTo(p, m, target) == Err(Raised(UnknownLabel(target)))
    ensures target in p.labels && p.labels[target] == 0 ==> JumpTo(p, m, target) == Err(Panicked(PcUnderflow))
  {
  }

  /** What one successful iteration changes: the stack below the popped
      values is untouched, the counter moves to the next instruction unless a
      jump is taken, `res` changes only on `RETURN_VALUE` and the variables
      only on `WRITE_VAR`. */
  lemma StepEffect(p: Program, m: Machine)
    requires m.pc < |p.code| && Step(p, m).Ok?
    ensures var i, m' := p.code[m.pc], Step(p, m).value;
            && |m'.stack| == |m.stack| - Pops(i) + Pushes(i)
            && m'.stack[..|m.stack| - Pops(i)] == m.stack[..|m.stack| - Pops(i)]
            && (TakesJump(p, m) ==> m'.pc + 1 == p.labels[JumpTarget(p, m)])
            && (!TakesJump(p, m) ==> m'.pc == m.pc + 1)
            && m'.res == (if i == ReturnValue then Top(m.stack) else m.res)
            && m'.vars == (if i.WriteVar? then m.vars[i.name := Top(m.stack)] else m.vars)
  {
    var s, m' := m.stack, Step(p, m).value;
    match p.code[m.pc]
    case LoadVal(n) =>
      assert m'.stack == s + [n];
    case ReadVar(x) =>
      assert m'.stack == s + [m.vars[x]];
    case Add =>
      assert m'.stack == s[..|s| - 2] + [s[|s| - 1] + s[|s| - 2]];
    case Sub =>
      assert m'.stack == s[..|s| - 2] + [s[|s| - 2] - s[|s| - 1]];
    case Multiply =>
      assert m'.stack == s[..|s| - 2] + [Int32.Mul(s[|s| - 1], s[|s| - 2])];
    case Divide =>
      assert m'.stack == s[..|s| - 2] + [Int32.TruncDiv(s[|s| - 2], s[|s| - 1])];
    case Cmp(n) =>
      assert m'.stack == Below(s) + [Top(s) - n];
    case _ =>
  }

  /** The loop, given at most `fuel` iterations. It ends normally as soon as
      the counter is outside the program, with whatever `res` holds. */
  function Run(p: Program, m: Machine, fuel: nat): (o: Outcome)
    decreases fuel
  {
    if m.pc >= |p.code| then Finished(m.res)
    else if fuel == 0 then OutOfFuel
    else match Step(p, m)
      case Ok(m') => Run(p, m', fuel - 1)
      case Err(Raised(f)) => Failed(f)
      case Err(Panicked(k)) => Aborted(k)
  }

  /** `execute`: run from a fresh machine. */
  function Execute(p: Program, fuel: nat): Outcome {
    Run(p, Initial, fuel)
  }
}
