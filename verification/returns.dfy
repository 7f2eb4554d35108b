/** What `RETURN_VALUE` means. On its own it only pops the top value into
    `res` and moves on; the loop ends when the counter leaves the program,
    and `execute` then returns `res`. It is the loader's rule that the one
    `RETURN_VALUE` is the last instruction that makes it behave as a
    return. A jump may still leave the program without running it, and
    then the result is the initial 0. */
module ReturnSemantics {
  import opened Wrappers
  import opened Bytecode
  import opened Loader
  import opened Listing
  import opened Interpreter
  import opened InterpreterProperties

  /** The reading of `RETURN_VALUE` as a return: it stops the run at once
      with the popped value. Everything else is as in `Run`. */
  function HaltingRun(p: Program, m: Machine, fuel: nat): Outcome
    decreases fuel
  {
    if m.pc >= |p.code| then Finished(m.res)
    else if fuel == 0 then OutOfFuel
    else if p.code[m.pc] == ReturnValue then
      if |m.stack| == 0 then Failed(StackUnderflow(AtReturn)) else Finished(Top(m.stack))
    else match Step(p, m)
      case Ok(m') => HaltingRun(p, m', fuel - 1)
      case Err(Raised(f)) => Failed(f)
      case Err(Panicked(k)) => Aborted(k)
  }

  /** For every program the loader accepts, the loop and the return reading
      agree on every machine and every amount of fuel. */
  lemma {:induction false} ReturnHalts(p: Program, m: Machine, fuel: nat)
    requires ReturnIsLast(p.code)
    ensures Run(p, m, fuel) == HaltingRun(p, m, fuel)
    decreases fuel
  {
    if m.pc < |p.code| && fuel > 0 {
      if p.code[m.pc] == ReturnValue {
        assert m.pc == |p.code| - 1;
        if |m.stack| > 0 {
          assert Step(p, m).value.pc == |p.code|;
        }
      } else if Step(p, m).Ok? {
        ReturnHalts(p, Step(p, m).value, fuel - 1);
      }
    }
  }

  /** Hence a loaded program's first `RETURN_VALUE` ends its run. */
  lemma LoadedReturnHalts(lines: seq<seq<string>>, fuel: nat)
    requires Load(lines).Ok?
    ensures Execute(Load(lines).value, fuel) == HaltingRun(Load(lines).value, Initial, fuel)
  {
    ReturnHalts(Load(lines).value, Initial, fuel);
  }

  /** Without the loader's rule the readings differ: here the loop runs on
      past the first `RETURN_VALUE` and returns the second value, and the
      loader rejects the program. */
  lemma ReturnNotTerminal()
    ensures var p := Program([LoadVal(7), ReturnValue, LoadVal(1), ReturnValue], map[]);
            && Execute(p, 4) == Finished(1)
            && HaltingRun(p, Initial, 4) == Finished(7)
            && CheckReturn(p.code) == Err(MisplacedReturnValue)
  {
    var p := Program([LoadVal(7), ReturnValue, LoadVal(1), ReturnValue], map[]);
    TwoReturnsRun(p);
    TwoReturnsHalt(p);
    assert FirstReturn(p.code) == Some(1);
  }

  /** The loop runs both halves of the program: push 7, pop it into `res`,
      push 1, pop it into `res`. */
  lemma TwoReturnsRun(p: Program)
    requires p.code == [LoadVal(7), ReturnValue, LoadVal(1), ReturnValue]
    ensures Execute(p, 4) == Finished(1)
  {
    var m2 := Machine(2, [], map[], 7);
    PushFromEmpty(p, Initial, 7);
    PopLast(p, Initial.(pc := 1, stack := [7]), 7);
    PushFromEmpty(p, m2, 1);
    PopLast(p, m2.(pc := 3, stack := [1]), 1);
    RunMoves4(p, Initial, Initial.(pc := 1, stack := [7]), m2, m2.(pc := 3, stack := [1]),
              Machine(4, [], map[], 1), 0);
  }

  /** The return reading stops at the first `RETURN_VALUE` with 7. */
  lemma TwoReturnsHalt(p: Program)
    requires p.code == [LoadVal(7), ReturnValue, LoadVal(1), ReturnValue]
    ensures HaltingRun(p, Initial, 4) == Finished(7)
  {
    PushFromEmpty(p, Initial, 7);
    assert Step(p, Initial).value == Initial.(pc := 1, stack := [7]);
  }

  /** `LOAD_VAL v` on an empty stack leaves just `v` on it. */
  lemma PushFromEmpty(p: Program, m: Machine, v: int)
    requires m.pc < |p.code| && p.code[m.pc] == LoadVal(v) && m.stack == []
    ensures Moves(p, m, m.(pc := m.pc + 1, stack := [v]))
  {
    assert m.stack + [v] == [v];
    LoadValMoves(p, m, v, m.(pc := m.pc + 1, stack := [v]));
  }

  /** `RETURN_VALUE` on a one-value stack empties it into `res`. */
  lemma PopLast(p: Program, m: Machine, v: int)
    requires m.pc < |p.code| && p.code[m.pc] == ReturnValue && m.stack == [v]
    ensures Moves(p, m, m.(pc := m.pc + 1, stack := [], res := v))
  {
    assert Below(m.stack) == [];
    ReturnMoves(p, m, m.(pc := m.pc + 1, stack := [], res := v));
  }

  /** A run that never meets a `RETURN_VALUE` finishes, if at all, with the
      `res` it started from. */
  lemma {:induction false} NoReturnKeepsResult(p: Program, m: Machine, fuel: nat)
    requires forall k :: 0 <= k < |p.code| ==> p.code[k] != ReturnValue
    requires Run(p, m, fuel).Finished?
    ensures Run(p, m, fuel).value == m.res
    decreases fuel
  {
    if m.pc < |p.code| {
      StepEffect(p, m);
      NoReturnKeepsResult(p, Step(p, m).value, fuel - 1);
    }
  }

  /** A loaded program can jump over its `RETURN_VALUE` to a label defined
      after it, which stores one more than the program's length; the loop
      then ends without running `RETURN_VALUE`, and `execute` returns the
      initial 0. */
  lemma JumpPastReturn()
    ensures var code := [Jmp("end"), ReturnValue];
            && Load(PrintAll(Plain(code) + [Label("end")])) == Ok(Program(code, map["end" := 3]))
            && Execute(Program(code, map["end" := 3]), 1) == Finished(0)
  {
    var code := [Jmp("end"), ReturnValue];
    assert WellFormedCode(code) && ReturnIsLast(code);
    LoadLabelled(code, 2, "end");
    assert code[..2] == code && code[2..] == [];
    assert Plain(code[..2]) + [Label("end")] + Plain(code[2..]) == Plain(code) + [Label("end")];
    var p := Program(code, map["end" := 3]);
    assert Moves(p, Initial, Machine(2, [], map[], 0));
    RunTrace(p, [Initial, Machine(2, [], map[], 0)], 0);
  }
}
