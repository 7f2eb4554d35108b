/** Worked programs, loaded from their printed lines and run to the end. */
module Golden {
  import opened Wrappers
  import opened Bytecode
  import opened Loader
  import opened Listing
  import opened Interpreter
  import opened InterpreterProperties
  import Int32
  import Identifier

  /** Arithmetic on two literals: `LOAD_VAL y`, `LOAD_VAL x`, `op`,
      `RETURN_VALUE`. */
  function BinaryCode(y: int, x: int, op: Instruction): seq<Instruction> {
    [LoadVal(y), LoadVal(x), op, ReturnValue]
  }

  /** What the two-literal program should finish with. */
  function BinaryOutcome(y: int, x: int, op: Instruction): Outcome
    requires IsArithmetic(op)
  {
    if op == Divide && x == 0 then Failed(DivideByZero)
    else if Int32.InRange(Apply(op, y, x)) then Finished(Apply(op, y, x))
    else Aborted(Overflow)
  }

  /** The last two iterations: the arithmetic instruction, then the return. */
  lemma BinaryTail(p: Program, y: int, x: int, op: Instruction)
    requires IsArithmetic(op)
    requires |p.code| == 4 && p.code[2] == op && p.code[3] == ReturnValue
    ensures Run(p, Machine(2, [y, x], map[], 0), 2) == BinaryOutcome(y, x, op)
  {
    if !(op == Divide && x == 0) && Int32.InRange(Apply(op, y, x)) {
      BinaryTailOk(p, y, x, op);
    } else {
      var m2 := Machine(2, [y, x], map[], 0);
      assert m2.stack == [] + [y, x];
      Arithmetic(p, m2, [], y, x);
    }
  }

  lemma BinaryTailOk(p: Program, y: int, x: int, op: Instruction)
    requires IsArithmetic(op) && !(op == Divide && x == 0) && Int32.InRange(Apply(op, y, x))
    requires |p.code| == 4 && p.code[2] == op && p.code[3] == ReturnValue
    ensures Run(p, Machine(2, [y, x], map[], 0), 2) == Finished(Apply(op, y, x))
  {
    var m2 := Machine(2, [y, x], map[], 0);
    var v := Apply(op, y, x);
    var m3 := Machine(3, [v], map[], 0);
    var m4 := Machine(4, [], map[], v);
    BinaryMoves(p, m2, y, x, m3);
    ReturnMoves(p, m3, m4);
    RunMoves2(p, m2, m3, m4, 0);
  }

  lemma BinaryMoves(p: Program, m2: Machine, y: int, x: int, m3: Machine)
    requires m2 == Machine(2, [y, x], map[], 0) && |p.code| == 4 && IsArithmetic(p.code[2])
    requires !(p.code[2] == Divide && x == 0) && Int32.InRange(Apply(p.code[2], y, x))
    requires m3 == Machine(3, [Apply(p.code[2], y, x)], map[], 0)
    ensures Moves(p, m2, m3)
  {
    assert m2.stack == [] + [y, x];
    Arithmetic(p, m2, [], y, x);
    assert [] + [Apply(p.code[2], y, x)] == m3.stack;
  }

  /** The four arithmetic programs load, and combine the left operand `y`
      with the right operand `x`, stopping on a zero divisor and panicking
      when the result leaves the `i32` range. */
  lemma BinaryRun(y: int, x: int, op: Instruction)
    requires Int32.InRange(y) && Int32.InRange(x) && IsArithmetic(op)
    ensures Load(PrintAll(Plain(BinaryCode(y, x, op)))) == Ok(Program(BinaryCode(y, x, op), map[]))
    ensures Execute(Program(BinaryCode(y, x, op), map[]), 4) == BinaryOutcome(y, x, op)
  {
    var code := BinaryCode(y, x, op);
    assert WellFormedCode(code) && ReturnIsLast(code);
    LoadPlain(code);
    var p := Program(code, map[]);
    var m1 := Machine(1, [y], map[], 0);
    var m2 := Machine(2, [y, x], map[], 0);
    assert Initial.stack + [y] == m1.stack && m1.stack + [x] == m2.stack;
    LoadValMoves(p, Initial, y, m1);
    LoadValMoves(p, m1, x, m2);
    BinaryTail(p, y, x, op);
    RunMoves2(p, Initial, m1, m2, 2);
  }

  /** `10 - 3` is 7: the value pushed first is the left operand. */
  lemma SubtractExample()
    ensures Execute(Program(BinaryCode(10, 3, Sub), map[]), 4) == Finished(7)
  {
    BinaryRun(10, 3, Sub);
  }

  /** `-7 / 2` is -3: the quotient is truncated toward zero. */
  lemma DivideExample()
    ensures Execute(Program(BinaryCode(-7, 2, Divide), map[]), 4) == Finished(-3)
  {
    BinaryRun(-7, 2, Divide);
    assert Apply(Divide, -7, 2) == -3;
  }

  /** `-2147483648 / -1` leaves the `i32` range. */
  lemma DivideOverflowExample()
    ensures Execute(Program(BinaryCode(Int32.MIN, -1, Divide), map[]), 4) == Aborted(Overflow)
  {
    BinaryRun(Int32.MIN, -1, Divide);
    assert Apply(Divide, Int32.MIN, -1) == -Int32.MIN;
  }

  /** `1 / 0` stops with a division-by-zero error. */
  lemma DivideByZeroExample()
    ensures Execute(Program(BinaryCode(1, 0, Divide), map[]), 4) == Failed(DivideByZero)
  {
    BinaryRun(1, 0, Divide);
  }

  /** Variable names are case-insensitive: `'X__'` and `'x__'` name the
      same variable, `x__`. */
  lemma VariableSpelling()
    ensures Identifier.ValidVariable("'X__'") == Ok("x__")
    ensures Identifier.ValidVariable("'x__'") == Ok("x__")
  {
    Identifier.ValidQuote("X__");
    Identifier.ValidQuote("x__");
    var upper, lower := Identifier.Quote("X__"), Identifier.Quote("x__");
    assert |upper| == 5 && upper[0] == '\'' && upper[1] == 'X' && upper[2] == '_' && upper[3] == '_' && upper[4] == '\'';
    assert upper == "'X__'";
    assert |lower| == 5 && lower[0] == '\'' && lower[1] == 'x' && lower[2] == '_' && lower[3] == '_' && lower[4] == '\'';
    assert lower == "'x__'";
    var low, same := Identifier.Lower("X__"), Identifier.Lower("x__");
    assert low[0] == 'x' && low[1] == '_' && low[2] == '_';
    assert low == "x__";
    assert same[0] == 'x' && same[1] == '_' && same[2] == '_';
    assert same == "x__";
  }

  /** `WRITE_VAR 'X__'` and `READ_VAR 'x__'` decode to the same lower-cased
      name. */
  lemma VariableDecode()
    ensures DecodeLine(["WRITE_VAR", "'X__'"]) == Ok(Emit(WriteVar("x__")))
    ensures DecodeLine(["READ_VAR", "'x__'"]) == Ok(Emit(ReadVar("x__")))
  {
    VariableSpelling();
    assert Identifier.IsQuotedName("'X__'") && Identifier.IsQuotedName("'x__'");
    DecodeOperands(["WRITE_VAR", "'X__'"]);
    DecodeOperands(["READ_VAR", "'x__'"]);
  }

  /** Store a value under a name and read it back: `LOAD_VAL v`,
      `WRITE_VAR x`, `READ_VAR x`, `RETURN_VALUE`. */
  function VariableCode(v: int, x: string): seq<Instruction> {
    [LoadVal(v), WriteVar(x), ReadVar(x), ReturnValue]
  }

  /** The program loads from its printed lines, and finishes with the value
      it stored: what `WRITE_VAR` binds, `READ_VAR` finds. */
  lemma VariableRun(v: int, x: string)
    requires Int32.InRange(v) && Identifier.IsLowerName(x)
    ensures Load(PrintAll(Plain(VariableCode(v, x)))) == Ok(Program(VariableCode(v, x), map[]))
    ensures Execute(Program(VariableCode(v, x), map[]), 4) == Finished(v)
  {
    VariableLoads(v, x);
    VariableFinishes(Program(VariableCode(v, x), map[]), v, x);
  }

  /** The stored-variable program loads from its printed lines. */
  lemma VariableLoads(v: int, x: string)
    requires Int32.InRange(v) && Identifier.IsLowerName(x)
    ensures Load(PrintAll(Plain(VariableCode(v, x)))) == Ok(Program(VariableCode(v, x), map[]))
  {
    var code := VariableCode(v, x);
    assert WellFormed(code[0]) && WellFormed(code[1]) && WellFormed(code[2]);
    assert WellFormedCode(code) && ReturnIsLast(code);
    LoadPlain(code);
  }

  /** The four iterations of the stored-variable program. */
  lemma VariableFinishes(p: Program, v: int, x: string)
    requires p.code == VariableCode(v, x)
    ensures Run(p, Initial, 4) == Finished(v)
  {
    var m1 := Machine(1, [v], map[], 0);
    var m2 := Machine(2, [], map[x := v], 0);
    var m3 := Machine(3, [v], map[x := v], 0);
    var m4 := Machine(4, [], map[x := v], v);
    LoadValMoves(p, Initial, v, m1);
    StoreMoves(p, m1, v, x, m2);
    FetchMoves(p, m2, v, x, m3);
    ReturnMoves(p, m3, m4);
    RunMoves4(p, Initial, m1, m2, m3, m4, 0);
  }

  /** The `WRITE_VAR` iteration of the stored-variable program. */
  lemma StoreMoves(p: Program, m1: Machine, v: int, x: string, m2: Machine)
    requires |p.code| == 4 && p.code[1] == WriteVar(x)
    requires m1 == Machine(1, [v], map[], 0) && m2 == Machine(2, [], map[x := v], 0)
    ensures Moves(p, m1, m2)
  {
    assert Below(m1.stack) == [] && Top(m1.stack) == v;
    WriteVarMoves(p, m1, x, m2);
  }

  /** The `READ_VAR` iteration of the stored-variable program. */
  lemma FetchMoves(p: Program, m2: Machine, v: int, x: string, m3: Machine)
    requires |p.code| == 4 && p.code[2] == ReadVar(x)
    requires m2 == Machine(2, [], map[x := v], 0) && m3 == Machine(3, [v], map[x := v], 0)
    ensures Moves(p, m2, m3)
  {
    assert m2.stack + [m2.vars[x]] == m3.stack;
    ReadVarMoves(p, m2, x, m3);
  }

  /** A counting loop: `n` starts at `-k`, and each pass adds 2 to `acc`
      and 1 to `n`, jumping back to `LABEL loop` while `n` is negative. The
      label is listed after four instructions, so it stores 5, and the
      jump resumes at index 4. */
  function LoopCode(k: int): seq<Instruction> {
    [ LoadVal(-k), WriteVar("n"), LoadVal(0), WriteVar("acc"),
      ReadVar("acc"), LoadVal(2), Add, WriteVar("acc"),
      ReadVar("n"), Cmp(-1), WriteVar("n"), ReadVar("n"), JmpLe("loop"),
      ReadVar("acc"), ReturnValue ]
  }

  function LoopListing(k: int): seq<Entry> {
    Plain(LoopCode(k)[..4]) + [Label("loop")] + Plain(LoopCode(k)[4..])
  }

  function LoopProgram(k: int): Program {
    Program(LoopCode(k), map["loop" := 5])
  }

  /** What the proofs below use of the loop program, a few instructions at
      a time: the set-up, the two halves of the body, the branch and the
      exit. */
  predicate StartShape(p: Program, k: int) {
    && |p.code| == 15
    && p.code[0] == LoadVal(-k) && p.code[1] == WriteVar("n") && p.code[2] == LoadVal(0) && p.code[3] == WriteVar("acc")
  }

  predicate AddShape(p: Program) {
    && |p.code| == 15
    && p.code[4] == ReadVar("acc") && p.code[5] == LoadVal(2) && p.code[6] == Add && p.code[7] == WriteVar("acc")
  }

  predicate IncrementShape(p: Program) {
    |p.code| == 15 && p.code[8] == ReadVar("n") && p.code[9] == Cmp(-1) && p.code[10] == WriteVar("n")
  }

  predicate BranchShape(p: Program) {
    && |p.code| == 15 && "loop" in p.labels && p.labels["loop"] == 5
    && p.code[11] == ReadVar("n") && p.code[12] == JmpLe("loop")
  }

  predicate ExitShape(p: Program) {
    |p.code| == 15 && p.code[13] == ReadVar("acc") && p.code[14] == ReturnValue
  }

  predicate LoopShape(p: Program, k: int) {
    StartShape(p, k) && AddShape(p) && IncrementShape(p) && BranchShape(p) && ExitShape(p)
  }

  lemma LoadLoop(k: int)
    requires Int32.InRange(-k)
    ensures Load(PrintAll(LoopListing(k))) == Ok(LoopProgram(k))
  {
    var code := LoopCode(k);
    assert Identifier.IsLowerName("n") && Identifier.IsLowerName("acc");
    assert WellFormedCode(code) && ReturnIsLast(code);
    LoadLabelled(code, 4, "loop");
  }

  function Counters(n: int, acc: int): map<string, int> {
    map["n" := n, "acc" := acc]
  }

  /** The first half of one pass: `acc := acc + 2`. */
  lemma LoopAdd(p: Program, n: int, acc: int, r: int, fuel: nat)
    requires AddShape(p)
    requires Int32.InRange(acc + 2)
    ensures Run(p, Machine(4, [], Counters(n, acc), r), fuel + 4)
         == Run(p, Machine(8, [], Counters(n, acc + 2), r), fuel)
  {
    var m := Machine(4, [], Counters(n, acc), r);
    var m1 := Machine(5, [acc], Counters(n, acc), r);
    var m2 := Machine(6, [acc, 2], Counters(n, acc), r);
    var m3 := Machine(7, [acc + 2], Counters(n, acc), r);
    AddReads(p, n, acc, r);
    AddLoads(p, n, acc, r);
    AddSums(p, n, acc, r);
    AddWrites(p, n, acc, r);
    RunMoves4(p, m, m1, m2, m3, Machine(8, [], Counters(n, acc + 2), r), fuel);
  }

  /* The iterations of one pass, one lemma each: keeping a single
     iteration per proof keeps each proof small. */

  lemma AddReads(p: Program, n: int, acc: int, r: int)
    requires AddShape(p)
    ensures Moves(p, Machine(4, [], Counters(n, acc), r), Machine(5, [acc], Counters(n, acc), r))
  {
    var m := Machine(4, [], Counters(n, acc), r);
    assert m.stack + [m.vars["acc"]] == [acc];
    ReadVarMoves(p, m, "acc", m.(pc := 5, stack := [acc]));
  }

  lemma AddLoads(p: Program, n: int, acc: int, r: int)
    requires AddShape(p)
    ensures Moves(p, Machine(5, [acc], Counters(n, acc), r), Machine(6, [acc, 2], Counters(n, acc), r))
  {
    var m := Machine(5, [acc], Counters(n, acc), r);
    assert m.stack + [2] == [acc, 2];
    LoadValMoves(p, m, 2, m.(pc := 6, stack := [acc, 2]));
  }

  lemma AddSums(p: Program, n: int, acc: int, r: int)
    requires AddShape(p) && Int32.InRange(acc + 2)
    ensures Moves(p, Machine(6, [acc, 2], Counters(n, acc), r), Machine(7, [acc + 2], Counters(n, acc), r))
  {
    var m := Machine(6, [acc, 2], Counters(n, acc), r);
    assert [] + [acc, 2] == m.stack && [] + [acc + 2] == [acc + 2];
    AddMoves(p, m, [], acc, 2, m.(pc := 7, stack := [acc + 2]));
  }

  lemma AddWrites(p: Program, n: int, acc: int, r: int)
    requires AddShape(p)
    ensures Moves(p, Machine(7, [acc + 2], Counters(n, acc), r), Machine(8, [], Counters(n, acc + 2), r))
  {
    var m := Machine(7, [acc + 2], Counters(n, acc), r);
    assert Counters(n, acc)["acc" := acc + 2] == Counters(n, acc + 2);
    assert Below(m.stack) == [];
    WriteVarMoves(p, m, "acc", Machine(8, [], Counters(n, acc + 2), r));
  }

  /** The second half of one pass: `n := n + 1`, ... */
  lemma LoopIncrement(p: Program, n: int, acc: int, r: int, fuel: nat)
    requires IncrementShape(p)
    requires Int32.InRange(n + 1)
    ensures Run(p, Machine(8, [], Counters(n, acc), r), fuel + 3)
         == Run(p, Machine(11, [], Counters(n + 1, acc), r), fuel)
  {
    var m := Machine(8, [], Counters(n, acc), r);
    var m1 := Machine(9, [n], Counters(n, acc), r);
    var m2 := Machine(10, [n + 1], Counters(n, acc), r);
    IncrementReads(p, n, acc, r);
    IncrementCompares(p, n, acc, r);
    IncrementWrites(p, n, acc, r);
    RunMoves3(p, m, m1, m2, Machine(11, [], Counters(n + 1, acc), r), fuel);
  }

  lemma IncrementReads(p: Program, n: int, acc: int, r: int)
    requires IncrementShape(p)
    ensures Moves(p, Machine(8, [], Counters(n, acc), r), Machine(9, [n], Counters(n, acc), r))
  {
    var m := Machine(8, [], Counters(n, acc), r);
    assert m.stack + [m.vars["n"]] == [n];
    ReadVarMoves(p, m, "n", m.(pc := 9, stack := [n]));
  }

  lemma IncrementCompares(p: Program, n: int, acc: int, r: int)
    requires IncrementShape(p) && Int32.InRange(n + 1)
    ensures Moves(p, Machine(9, [n], Counters(n, acc), r), Machine(10, [n + 1], Counters(n, acc), r))
  {
    var m := Machine(9, [n], Counters(n, acc), r);
    assert [] + [n] == m.stack && [] + [n - -1] == [n + 1];
    CmpMoves(p, m, [], n, -1, m.(pc := 10, stack := [n + 1]));
  }

  lemma IncrementWrites(p: Program, n: int, acc: int, r: int)
    requires IncrementShape(p)
    ensures Moves(p, Machine(10, [n + 1], Counters(n, acc), r), Machine(11, [], Counters(n + 1, acc), r))
  {
    var m := Machine(10, [n + 1], Counters(n, acc), r);
    assert Counters(n, acc)["n" := n + 1] == Counters(n + 1, acc);
    assert Below(m.stack) == [];
    WriteVarMoves(p, m, "n", Machine(11, [], Counters(n + 1, acc), r));
  }

  /** ... then back to the head while `n` is negative, ... */
  lemma LoopBranch(p: Program, n: int, acc: int, r: int, fuel: nat)
    requires BranchShape(p)
    ensures n < 0 ==>
              Run(p, Machine(11, [], Counters(n, acc), r), fuel + 2) == Run(p, Machine(4, [], Counters(n, acc), r), fuel)
    ensures n >= 0 ==>
              Run(p, Machine(11, [], Counters(n, acc), r), fuel + 2) == Run(p, Machine(13, [], Counters(n, acc), r), fuel)
  {
    var target := if n < 0 then 4 else 13;
    BranchReads(p, n, acc, r);
    BranchJumps(p, n, acc, r, target);
    RunMoves2(p, Machine(11, [], Counters(n, acc), r), Machine(12, [n], Counters(n, acc), r),
              Machine(target, [], Counters(n, acc), r), fuel);
  }

  lemma BranchReads(p: Program, n: int, acc: int, r: int)
    requires BranchShape(p)
    ensures Moves(p, Machine(11, [], Counters(n, acc), r), Machine(12, [n], Counters(n, acc), r))
  {
    var m := Machine(11, [], Counters(n, acc), r);
    assert m.stack + [m.vars["n"]] == [n];
    ReadVarMoves(p, m, "n", m.(pc := 12, stack := [n]));
  }

  /** ... reading `n` and jumping, or not, on its sign. */
  lemma BranchJumps(p: Program, n: int, acc: int, r: int, target: nat)
    requires BranchShape(p) && target == (if n < 0 then 4 else 13)
    ensures Moves(p, Machine(12, [n], Counters(n, acc), r), Machine(target, [], Counters(n, acc), r))
  {
    var m := Machine(12, [n], Counters(n, acc), r);
    assert Below(m.stack) == [];
    JmpLeMoves(p, m, "loop", m.(pc := target, stack := []));
  }

  /** After the last pass, `acc` is returned. */
  lemma LoopExit(p: Program, n: int, acc: int, r: int, fuel: nat)
    requires ExitShape(p)
    ensures Run(p, Machine(13, [], Counters(n, acc), r), fuel + 2) == Finished(acc)
  {
    ExitReads(p, n, acc, r);
    ExitReturns(p, n, acc, r);
    RunMoves2(p, Machine(13, [], Counters(n, acc), r), Machine(14, [acc], Counters(n, acc), r),
              Machine(15, [], Counters(n, acc), acc), fuel);
  }

  lemma ExitReads(p: Program, n: int, acc: int, r: int)
    requires ExitShape(p)
    ensures Moves(p, Machine(13, [], Counters(n, acc), r), Machine(14, [acc], Counters(n, acc), r))
  {
    var m := Machine(13, [], Counters(n, acc), r);
    assert m.stack + [m.vars["acc"]] == [acc];
    ReadVarMoves(p, m, "acc", m.(pc := 14, stack := [acc]));
  }

  lemma ExitReturns(p: Program, n: int, acc: int, r: int)
    requires ExitShape(p)
    ensures Moves(p, Machine(14, [acc], Counters(n, acc), r), Machine(15, [], Counters(n, acc), acc))
  {
    var m := Machine(14, [acc], Counters(n, acc), r);
    assert Below(m.stack) == [];
    ReturnMoves(p, m, Machine(15, [], Counters(n, acc), acc));
  }

  /** One whole pass from the loop head. */
  lemma LoopPass(p: Program, n: int, acc: int, r: int, fuel: nat)
    requires AddShape(p) && IncrementShape(p) && BranchShape(p)
    requires Int32.InRange(n + 1) && Int32.InRange(acc + 2)
    ensures n + 1 < 0 ==>
              Run(p, Machine(4, [], Counters(n, acc), r), fuel + 9) == Run(p, Machine(4, [], Counters(n + 1, acc + 2), r), fuel)
    ensures n + 1 >= 0 ==>
              Run(p, Machine(4, [], Counters(n, acc), r), fuel + 9) == Run(p, Machine(13, [], Counters(n + 1, acc + 2), r), fuel)
  {
    LoopAdd(p, n, acc, r, fuel + 5);
    LoopIncrement(p, n, acc + 2, r, fuel + 2);
    LoopBranch(p, n + 1, acc + 2, r, fuel);
  }

  /** From the loop head with `n < 0`, the run finishes with `acc - 2n`. */
  lemma {:induction false} LoopRuns(p: Program, n: int, acc: int, r: int)
    requires AddShape(p) && IncrementShape(p) && BranchShape(p) && ExitShape(p)
    requires n < 0 && Int32.InRange(n) && 0 <= acc && Int32.InRange(acc - 2 * n)
    ensures Run(p, Machine(4, [], Counters(n, acc), r), 9 * -n + 2) == Finished(acc - 2 * n)
    decreases -n
  {
    if n + 1 < 0 {
      LoopRuns(p, n + 1, acc + 2, r);
      assert acc + 2 - 2 * (n + 1) == acc - 2 * n;
      LoopPassBack(p, n, acc, r, acc - 2 * n);
    } else {
      LoopLastPass(p, n, acc, r);
    }
  }

  /** A pass that goes back to the head costs nine iterations. */
  lemma LoopPassBack(p: Program, n: int, acc: int, r: int, v: int)
    requires AddShape(p) && IncrementShape(p) && BranchShape(p)
    requires n + 1 < 0 && Int32.InRange(n + 1) && Int32.InRange(acc + 2)
    requires Run(p, Machine(4, [], Counters(n + 1, acc + 2), r), 9 * -(n + 1) + 2) == Finished(v)
    ensures Run(p, Machine(4, [], Counters(n, acc), r), 9 * -n + 2) == Finished(v)
  {
    var rest := 9 * -(n + 1) + 2;
    assert rest + 9 == 9 * -n + 2;
    LoopPass(p, n, acc, r, rest);
  }

  /** The pass that brings `n` from -1 to 0 ends the run. */
  lemma LoopLastPass(p: Program, n: int, acc: int, r: int)
    requires AddShape(p) && IncrementShape(p) && BranchShape(p) && ExitShape(p)
    requires n == -1 && Int32.InRange(acc + 2)
    ensures Run(p, Machine(4, [], Counters(n, acc), r), 9 * -n + 2) == Finished(acc - 2 * n)
  {
    LoopPass(p, n, acc, r, 2);
    LoopExit(p, n + 1, acc + 2, r, 0);
  }


  /** The first four instructions set `n` to `-k` and `acc` to 0. */
  lemma LoopStart(p: Program, k: int, fuel: nat)
    requires StartShape(p, k)
    ensures Run(p, Initial, fuel + 4) == Run(p, Machine(4, [], Counters(-k, 0), 0), fuel)
  {
    StartLoadsCounter(p, k);
    StartWritesCounter(p, k);
    StartLoadsZero(p, k);
    StartWritesSum(p, k);
    RunMoves4(p, Initial, Machine(1, [-k], map[], 0), Machine(2, [], map["n" := -k], 0),
              Machine(3, [0], map["n" := -k], 0), Machine(4, [], Counters(-k, 0), 0), fuel);
  }

  lemma StartLoadsCounter(p: Program, k: int)
    requires StartShape(p, k)
    ensures Moves(p, Initial, Machine(1, [-k], map[], 0))
  {
    assert Initial.stack + [-k] == [-k];
    LoadValMoves(p, Initial, -k, Machine(1, [-k], map[], 0));
  }

  lemma StartWritesCounter(p: Program, k: int)
    requires StartShape(p, k)
    ensures Moves(p, Machine(1, [-k], map[], 0), Machine(2, [], map["n" := -k], 0))
  {
    var m := Machine(1, [-k], map[], 0);
    assert Below(m.stack) == [];
    WriteVarMoves(p, m, "n", Machine(2, [], map["n" := -k], 0));
  }

  lemma StartLoadsZero(p: Program, k: int)
    requires StartShape(p, k)
    ensures Moves(p, Machine(2, [], map["n" := -k], 0), Machine(3, [0], map["n" := -k], 0))
  {
    var m := Machine(2, [], map["n" := -k], 0);
    assert m.stack + [0] == [0];
    LoadValMoves(p, m, 0, Machine(3, [0], map["n" := -k], 0));
  }

  lemma StartWritesSum(p: Program, k: int)
    requires StartShape(p, k)
    ensures Moves(p, Machine(3, [0], map["n" := -k], 0), Machine(4, [], Counters(-k, 0), 0))
  {
    var m := Machine(3, [0], map["n" := -k], 0);
    assert m.vars["acc" := 0] == Counters(-k, 0);
    assert Below(m.stack) == [];
    WriteVarMoves(p, m, "acc", Machine(4, [], Counters(-k, 0), 0));
  }

  /** Any program of the loop's shape returns `2k`. */
  lemma LoopResult(p: Program, k: int)
    requires LoopShape(p, k) && 1 <= k && Int32.InRange(2 * k)
    ensures Execute(p, 9 * k + 6) == Finished(2 * k)
  {
    var rest := 9 * k + 2;
    assert rest + 4 == 9 * k + 6 && 9 * -(-k) + 2 == rest && 0 - 2 * -k == 2 * k;
    LoopStart(p, k, rest);
    LoopRuns(p, -k, 0, 0);
  }

  lemma LoopProgramShape(k: int)
    ensures LoopShape(LoopProgram(k), k)
  {
  }

  /** The loop loads, runs `k` times and returns `2k`. */
  lemma LoopExample(k: int)
    requires 1 <= k && Int32.InRange(2 * k)
    ensures Load(PrintAll(LoopListing(k))) == Ok(LoopProgram(k))
    ensures Execute(LoopProgram(k), 9 * k + 6) == Finished(2 * k)
  {
    LoadLoop(k);
    LoopProgramShape(k);
    LoopResult(LoopProgram(k), k);
  }
}
