/** The label off-by-one, settled. The loader stores for a label the count of
    instructions emitted before it plus one (it bumps `inst_count` for every
    non-blank line, stores it, and takes it back for a `LABEL` line), and a
    jump sets the counter to the stored value minus one without the usual
    increment. The two adjustments cancel: a jump resumes exactly at the
    first instruction written after the `LABEL` line, and the subtraction
    never underflows. */
module LabelArithmetic {
  import opened Wrappers
  import opened Bytecode
  import opened Loader
  import opened LoaderProperties
  import opened Interpreter

  /** A `LABEL` line contributes no instruction. */
  lemma MarkEmitsNothing(tokens: seq<string>, l: string)
    requires Marks(tokens, l)
    ensures Emitted([tokens]) == []
  {
    assert [tokens][..0] == [];
    assert DecodeLine(tokens).Ok? && DecodeLine(tokens).value.Mark?;
  }

  /** The instructions of a program split at a label definition: those of
      the lines before it, then those of the lines after it. */
  lemma SplitAtMark(lines: seq<seq<string>>, j: nat, l: string)
    requires j < |lines| && Marks(lines[j], l)
    ensures Emitted(lines) == Emitted(lines[..j]) + Emitted(lines[j + 1..])
  {
    var before, mark, after := lines[..j], [lines[j]], lines[j + 1..];
    assert lines == before + (mark + after);
    EmittedAppend(before, mark + after);
    assert Emitted(lines) == Emitted(before) + Emitted(mark + after);
    EmittedAppend(mark, after);
    MarkEmitsNothing(lines[j], l);
    assert Emitted(mark + after) == Emitted(after);
  }

  /** The value a loaded program stores for a label, in terms of the lines:
      one more than the number of instructions before its last definition. */
  lemma LabelValue(lines: seq<seq<string>>, p: Program, l: string)
    requires Load(lines) == Ok(p) && l in p.labels
    ensures LastMark(lines, l).Some?
    ensures p.labels[l] == |Emitted(lines[..LastMark(lines, l).value])| + 1
    ensures p.code == Emitted(lines[..LastMark(lines, l).value]) + Emitted(lines[LastMark(lines, l).value + 1..])
  {
    LoadedAssembly(lines, p);
    AssembleSound(lines);
    SplitAtMark(lines, LastMark(lines, l).value, l);
  }

  /** A loaded program is the assembled one. */
  lemma LoadedAssembly(lines: seq<seq<string>>, p: Program)
    requires Load(lines) == Ok(p)
    ensures Assemble(lines).Ok? && Assemble(lines).value.code == p.code && Assemble(lines).value.labels == p.labels
  {
  }

  /** A taken jump moves the counter to the stored value less one. */
  lemma TakenJump(p: Program, m: Machine)
    requires m.pc < |p.code| && TakesJump(p, m)
    requires JumpTarget(p, m) in p.labels && p.labels[JumpTarget(p, m)] >= 1
    ensures Step(p, m).Ok? && Step(p, m).value.pc == p.labels[JumpTarget(p, m)] - 1
  {
    TakenJumpStep(p, m);
  }

  /** A taken jump is `JumpTo`, after `JMP_LE` has popped its value. */
  lemma TakenJumpStep(p: Program, m: Machine)
    requires m.pc < |p.code| && TakesJump(p, m)
    ensures Step(p, m) == JumpTo(p, if p.code[m.pc].JmpLe? then m.(stack := Below(m.stack)) else m, JumpTarget(p, m))
  {
  }

  /** Only a taken jump to a label storing 0 can underflow the counter. */
  lemma PcUnderflowOnJump(p: Program, m: Machine)
    requires m.pc < |p.code|
    ensures Step(p, m) == Err(Panicked(PcUnderflow)) ==>
              TakesJump(p, m) && JumpTarget(p, m) in p.labels && p.labels[JumpTarget(p, m)] == 0
  {
    if TakesJump(p, m) {
      TakenJumpStep(p, m);
    }
  }

  /** In a loaded program, a taken jump to a defined label lands on index
      `|Emitted(lines[..j])|`, where `j` is the label's last `LABEL` line:
      from there on the program is exactly the instructions of the lines
      after that `LABEL` line. The target is at most the program's length,
      where it ends the loop. */
  lemma JumpLands(lines: seq<seq<string>>, p: Program, m: Machine)
    requires Load(lines) == Ok(p)
    requires m.pc < |p.code| && TakesJump(p, m) && JumpTarget(p, m) in p.labels
    ensures LastMark(lines, JumpTarget(p, m)).Some?
    ensures var j := LastMark(lines, JumpTarget(p, m)).value;
            && Step(p, m).Ok?
            && Step(p, m).value.pc == |Emitted(lines[..j])| <= |p.code|
            && p.code[Step(p, m).value.pc..] == Emitted(lines[j + 1..])
  {
    var l := JumpTarget(p, m);
    LabelValue(lines, p, l);
    TakenJump(p, m);
  }

  /** A jump to a label no `LABEL` line defines is a run-time error; the
      loader does not check targets. */
  lemma JumpToUndefined(lines: seq<seq<string>>, m: Machine)
    requires Load(lines).Ok?
    requires m.pc < |Load(lines).value.code| && TakesJump(Load(lines).value, m)
    requires LastMark(lines, JumpTarget(Load(lines).value, m)).None?
    ensures Step(Load(lines).value, m) == Err(Raised(UnknownLabel(JumpTarget(Load(lines).value, m))))
  {
    LoadSound(lines);
    TakenJumpStep(Load(lines).value, m);
  }

  /** No iteration of a loaded program underflows the counter. */
  lemma NoCounterUnderflow(lines: seq<seq<string>>, m: Machine)
    requires Load(lines).Ok? && m.pc < |Load(lines).value.code|
    ensures Step(Load(lines).value, m) != Err(Panicked(PcUnderflow))
  {
    var p := Load(lines).value;
    PcUnderflowOnJump(p, m);
    if TakesJump(p, m) {
      assert JumpTarget(p, m) in p.labels ==> p.labels[JumpTarget(p, m)] >= 1;
    }
  }
}
