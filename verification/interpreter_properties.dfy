/** Properties of single iterations and of whole runs of the interpreter. */
module InterpreterProperties {
  import opened Wrappers
  import opened Bytecode
  import opened Interpreter
  import Int32

  /** Every value the machine holds fits an `i32`, as the source's types
      guarantee. */
  predicate InRangeMachine(m: Machine) {
    && (forall k :: 0 <= k < |m.stack| ==> Int32.InRange(m.stack[k]))
    && (forall x :: x in m.vars ==> Int32.InRange(m.vars[x]))
    && Int32.InRange(m.res)
  }

  /** With well-formed instructions, an iteration keeps every value in the
      `i32` range: results that would leave it panic instead. */
  lemma StepInRange(p: Program, m: Machine)
    requires m.pc < |p.code| && WellFormedCode(p.code) && InRangeMachine(m)
    requires Step(p, m).Ok?
    ensures InRangeMachine(Step(p, m).value)
  {
    StepStackInRange(p, m);
    StepEffect(p, m);
  }

  /** The stack part of `StepInRange`: the values below the popped ones
      stay, and the pushed one fits. */
  lemma StepStackInRange(p: Program, m: Machine)
    requires m.pc < |p.code| && WellFormedCode(p.code) && InRangeMachine(m)
    requires Step(p, m).Ok?
    ensures forall k :: 0 <= k < |Step(p, m).value.stack| ==> Int32.InRange(Step(p, m).value.stack[k])
  {
    var s, m' := m.stack, Step(p, m).value;
    assert WellFormed(p.code[m.pc]);
    StepEffect(p, m);
    var keep := |s| - Pops(p.code[m.pc]);
    assert forall k :: 0 <= k < keep ==> m'.stack[k] == m'.stack[..keep][k] == s[k];
    if Pushes(p.code[m.pc]) == 1 {
      assert Int32.InRange(m'.stack[|m'.stack| - 1]) by {
        match p.code[m.pc]
        case LoadVal(n) =>
        case ReadVar(x) =>
        case _ =>
      }
    }
  }

  /** The value a run finishes with always fits an `i32`. */
  lemma {:induction false} RunInRange(p: Program, m: Machine, fuel: nat)
    requires WellFormedCode(p.code) && InRangeMachine(m)
    requires Run(p, m, fuel).Finished?
    ensures Int32.InRange(Run(p, m, fuel).value)
    decreases fuel
  {
    if m.pc < |p.code| {
      StepInRange(p, m);
      RunInRange(p, Step(p, m).value, fuel - 1);
    }
  }

  /** More fuel never changes a run that did not run out of it. */
  lemma {:induction false} RunMoreFuel(p: Program, m: Machine, fuel: nat, more: nat)
    requires Run(p, m, fuel) != OutOfFuel
    ensures Run(p, m, fuel + more) == Run(p, m, fuel)
    decreases fuel
  {
    if m.pc < |p.code| && Step(p, m).Ok? {
      RunMoreFuel(p, Step(p, m).value, fuel - 1, more);
    }
  }

  /** A run that takes a successful iteration is that iteration followed by
      the run of what is left. */
  lemma RunUnfold(p: Program, m: Machine, fuel: nat)
    requires m.pc < |p.code| && fuel > 0 && Step(p, m).Ok?
    ensures Run(p, m, fuel) == Run(p, Step(p, m).value, fuel - 1)
  {
  }

  /** One successful iteration from `m` leads to `m'`. */
  predicate Moves(p: Program, m: Machine, m': Machine) {
    && m.pc < |p.code| && Step(p, m).Ok?
    && Step(p, m).value.pc == m'.pc && Step(p, m).value.stack == m'.stack
    && Step(p, m).value.vars == m'.vars && Step(p, m).value.res == m'.res
  }

  /** An iteration from `m` to `m'` costs one unit of fuel. */
  lemma RunMoves(p: Program, m: Machine, m': Machine, fuel: nat)
    requires Moves(p, m, m')
    ensures Run(p, m, fuel + 1) == Run(p, m', fuel)
  {
    assert Step(p, m).value == m';
  }

  /** Two, three and four iterations in a row. */
  lemma RunMoves2(p: Program, m0: Machine, m1: Machine, m2: Machine, fuel: nat)
    requires Moves(p, m0, m1) && Moves(p, m1, m2)
    ensures Run(p, m0, fuel + 2) == Run(p, m2, fuel)
  {
    RunMoves(p, m0, m1, fuel + 1);
    RunMoves(p, m1, m2, fuel);
  }

  lemma RunMoves3(p: Program, m0: Machine, m1: Machine, m2: Machine, m3: Machine, fuel: nat)
    requires Moves(p, m0, m1) && Moves(p, m1, m2) && Moves(p, m2, m3)
    ensures Run(p, m0, fuel + 3) == Run(p, m3, fuel)
  {
    RunMoves(p, m0, m1, fuel + 2);
    RunMoves2(p, m1, m2, m3, fuel);
  }

  lemma RunMoves4(p: Program, m0: Machine, m1: Machine, m2: Machine, m3: Machine, m4: Machine, fuel: nat)
    requires Moves(p, m0, m1) && Moves(p, m1, m2) && Moves(p, m2, m3) && Moves(p, m3, m4)
    ensures Run(p, m0, fuel + 4) == Run(p, m4, fuel)
  {
    RunMoves(p, m0, m1, fuel + 3);
    RunMoves3(p, m1, m2, m3, m4, fuel);
  }

  /** `LOAD_VAL n` pushes `n`. */
  lemma LoadValMoves(p: Program, m: Machine, n: int, m': Machine)
    requires m.pc < |p.code| && p.code[m.pc] == LoadVal(n)
    requires m'.pc == m.pc + 1 && m'.stack == m.stack + [n] && m'.vars == m.vars && m'.res == m.res
    ensures Moves(p, m, m')
  {
  }

  /** `WRITE_VAR x` pops the top value into `x`. */
  lemma WriteVarMoves(p: Program, m: Machine, x: string, m': Machine)
    requires m.pc < |p.code| && p.code[m.pc] == WriteVar(x) && |m.stack| > 0
    requires m'.pc == m.pc + 1 && m'.stack == Below(m.stack) && m'.vars == m.vars[x := Top(m.stack)]
    requires m'.res == m.res
    ensures Moves(p, m, m')
  {
  }

  /** `READ_VAR x` pushes the value bound to `x`. */
  lemma ReadVarMoves(p: Program, m: Machine, x: string, m': Machine)
    requires m.pc < |p.code| && p.code[m.pc] == ReadVar(x) && x in m.vars
    requires m'.pc == m.pc + 1 && m'.stack == m.stack + [m.vars[x]] && m'.vars == m.vars && m'.res == m.res
    ensures Moves(p, m, m')
  {
  }

  /** `RETURN_VALUE` pops the top value into `res` and moves on. */
  lemma ReturnMoves(p: Program, m: Machine, m': Machine)
    requires m.pc < |p.code| && p.code[m.pc] == ReturnValue && |m.stack| > 0
    requires m'.pc == m.pc + 1 && m'.stack == Below(m.stack) && m'.vars == m.vars && m'.res == Top(m.stack)
    ensures Moves(p, m, m')
  {
  }

  /** `ADD` replaces the two top values by their sum. */
  lemma AddMoves(p: Program, m: Machine, below: seq<int>, y: int, x: int, m': Machine)
    requires m.pc < |p.code| && p.code[m.pc] == Add && m.stack == below + [y, x] && Int32.InRange(y + x)
    requires m'.pc == m.pc + 1 && m'.stack == below + [y + x] && m'.vars == m.vars && m'.res == m.res
    ensures Moves(p, m, m')
  {
    Arithmetic(p, m, below, y, x);
  }

  /** `CMP n` replaces the top value `v` by `v - n`. */
  lemma CmpMoves(p: Program, m: Machine, below: seq<int>, v: int, n: int, m': Machine)
    requires m.pc < |p.code| && p.code[m.pc] == Cmp(n) && m.stack == below + [v] && Int32.InRange(v - n)
    requires m'.pc == m.pc + 1 && m'.stack == below + [v - n] && m'.vars == m.vars && m'.res == m.res
    ensures Moves(p, m, m')
  {
    Compare(p, m, below, v, n);
  }

  /** `JMP l` moves the counter to the value stored for `l`, less one. */
  lemma JmpMoves(p: Program, m: Machine, l: string, m': Machine)
    requires m.pc < |p.code| && p.code[m.pc] == Jmp(l) && l in p.labels && p.labels[l] >= 1
    requires m'.pc == p.labels[l] - 1 && m'.stack == m.stack && m'.vars == m.vars && m'.res == m.res
    ensures Moves(p, m, m')
  {
    assert Step(p, m) == JumpTo(p, m, l);
  }

  /** `JMP_LE l` pops the top value and jumps to `l` when it is negative. */
  lemma JmpLeMoves(p: Program, m: Machine, l: string, m': Machine)
    requires m.pc < |p.code| && p.code[m.pc] == JmpLe(l) && |m.stack| > 0
    requires Top(m.stack) < 0 ==> l in p.labels && p.labels[l] >= 1
    requires m'.pc == (if Top(m.stack) < 0 then p.labels[l] - 1 else m.pc + 1)
    requires m'.stack == Below(m.stack) && m'.vars == m.vars && m'.res == m.res
    ensures Moves(p, m, m')
  {
    JumpIfNegative(p, m, l);
  }

  /** A run that passes through the machines `ms` one iteration at a time
      is, after those iterations, the run from the last of them. */
  lemma {:induction false} RunTrace(p: Program, ms: seq<Machine>, fuel: nat)
    requires |ms| > 0 && forall i :: 0 <= i < |ms| - 1 ==> Moves(p, ms[i], ms[i + 1])
    ensures Run(p, ms[0], fuel + |ms| - 1) == Run(p, ms[|ms| - 1], fuel)
    decreases |ms|
  {
    if |ms| > 1 {
      var rest := ms[1..];
      forall i | 0 <= i < |rest| - 1 ensures Moves(p, rest[i], rest[i + 1]) {
        assert rest[i] == ms[i + 1] && rest[i + 1] == ms[i + 2];
      }
      RunTrace(p, rest, fuel);
      assert Moves(p, ms[0], ms[1]);
      assert Step(p, ms[0]).value == ms[1];
      RunUnfold(p, ms[0], fuel + |ms| - 1);
      assert Run(p, ms[0], fuel + |ms| - 1) == Run(p, rest[0], fuel + |rest| - 1);
    }
  }

  predicate IsArithmetic(i: Instruction) {
    i == Add || i == Sub || i == Multiply || i == Divide
  }

  /** What an arithmetic instruction computes from the left operand `y`
      and the right operand `x`, before the range check: the quotient is
      truncated toward zero. */
  function Apply(op: Instruction, y: int, x: int): int
    requires IsArithmetic(op) && (op == Divide ==> x != 0)
  {
    match op
    case Add => y + x
    case Sub => y - x
    case Multiply => y * x
    case Divide => Int32.TruncDiv(y, x)
  }

  /** `ADD`, `SUB`, `MULTIPLY` and `DIVIDE` on a stack ending in `y, x`
      (`x` on top): the second value popped is the left operand, a zero
      divisor is an error, and a result outside the `i32` range panics. */
  lemma Arithmetic(p: Program, m: Machine, below: seq<int>, y: int, x: int)
    requires m.pc < |p.code| && IsArithmetic(p.code[m.pc]) && m.stack == below + [y, x]
    ensures p.code[m.pc] == Divide && x == 0 ==> Step(p, m) == Err(Raised(DivideByZero))
    ensures !(p.code[m.pc] == Divide && x == 0) ==>
              Step(p, m) == (if Int32.InRange(Apply(p.code[m.pc], y, x))
                             then Ok(m.(pc := m.pc + 1, stack := below + [Apply(p.code[m.pc], y, x)]))
                             else Err(Panicked(Overflow)))
  {
    var s := m.stack;
    assert s[..|s| - 2] == below && s[|s| - 2] == y && s[|s| - 1] == x;
    if p.code[m.pc] == Multiply {
      Int32.MulIsProduct(x, y);
    }
  }

  /** `CMP n` replaces the top value `v` by `v - n`. */
  lemma Compare(p: Program, m: Machine, below: seq<int>, v: int, n: int)
    requires m.pc < |p.code| && p.code[m.pc] == Cmp(n) && m.stack == below + [v]
    ensures Step(p, m) == (if Int32.InRange(v - n) then Ok(m.(pc := m.pc + 1, stack := below + [v - n]))
                           else Err(Panicked(Overflow)))
  {
    assert Below(m.stack) == below;
  }

  /** `DIVIDE` looks at its divisor before popping the dividend: a lone 0 on
      the stack is a division by zero, not an underflow. */
  lemma DivisorCheckedFirst(p: Program, m: Machine)
    requires m.pc < |p.code| && p.code[m.pc] == Divide && m.stack == [0]
    ensures Step(p, m) == Err(Raised(DivideByZero))
  {
  }

  /** `WRITE_VAR x` then `READ_VAR x` leaves the stack as it was and binds
      `x` to the value that was on top. */
  lemma WriteThenRead(p: Program, m: Machine, x: string)
    requires m.pc + 1 < |p.code| && p.code[m.pc] == WriteVar(x) && p.code[m.pc + 1] == ReadVar(x)
    requires |m.stack| > 0
    ensures Step(p, m).Ok?
    ensures Step(p, Step(p, m).value) == Ok(m.(pc := m.pc + 2, vars := m.vars[x := Top(m.stack)]))
  {
    var m' := Step(p, m).value;
    assert m'.stack + [Top(m.stack)] == m.stack;
  }

  /** Reading a variable never written is an error. */
  lemma ReadUnbound(p: Program, m: Machine, x: string)
    requires m.pc < |p.code| && p.code[m.pc] == ReadVar(x) && x !in m.vars
    ensures Step(p, m) == Err(Raised(UnboundVariable(x)))
  {
  }

  /** `JMP_LE` branches only on a strictly negative value; on zero or more it
      falls through, popping the value either way. */
  lemma JumpIfNegative(p: Program, m: Machine, l: string)
    requires m.pc < |p.code| && p.code[m.pc] == JmpLe(l) && |m.stack| > 0
    ensures Top(m.stack) >= 0 ==> Step(p, m) == Ok(m.(pc := m.pc + 1, stack := Below(m.stack)))
    ensures Top(m.stack) < 0 && l !in p.labels ==> Step(p, m) == Err(Raised(UnknownLabel(l)))
    ensures Top(m.stack) < 0 && l in p.labels && p.labels[l] > 0 ==>
              Step(p, m) == Ok(m.(pc := p.labels[l] - 1, stack := Below(m.stack)))
  {
  }
}
