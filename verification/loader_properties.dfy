/** What a successful load produces, stated against reference definitions
    that look at each line on its own rather than at the loader's running
    state: the instruction sequence is the instructions of the non-blank,
    non-`LABEL` lines in order, and each label stores one more than the
    number of instructions emitted before its last definition. */
module LoaderProperties {
  import opened Wrappers
  import opened Bytecode
  import opened Loader
  import Tokenizer

  /** A line the loader accepts on its own: blank, or decodable. */
  predicate Decodes(tokens: seq<string>) {
    |tokens| == 0 || DecodeLine(tokens).Ok?
  }

  /** The instruction a single line contributes, if any. */
  function EmittedBy(tokens: seq<string>): seq<Instruction> {
    if |tokens| > 0 && DecodeLine(tokens).Ok? && DecodeLine(tokens).value.Emit?
    then [DecodeLine(tokens).value.instr]
    else []
  }

  /** The instructions the lines contribute, in order. */
  function Emitted(lines: seq<seq<string>>): seq<Instruction> {
    if |lines| == 0 then [] else Emitted(lines[..|lines| - 1]) + EmittedBy(lines[|lines| - 1])
  }

  /** The index of the last line that defines label `l`. */
  function LastMark(lines: seq<seq<string>>, l: string): (r: Option<nat>)
    ensures r.Some? ==> r.value < |lines| && Marks(lines[r.value], l)
    ensures r.Some? ==> forall k :: r.value < k < |lines| ==> !Marks(lines[k], l)
    ensures r.None? ==> forall k :: 0 <= k < |lines| ==> !Marks(lines[k], l)
  {
    if |lines| == 0 then None
    else if Marks(lines[|lines| - 1], l) then Some(|lines| - 1)
    else LastMark(lines[..|lines| - 1], l)
  }

  lemma {:induction false} EmittedAppend(a: seq<seq<string>>, b: seq<seq<string>>)
    ensures Emitted(a + b) == Emitted(a) + Emitted(b)
    decreases |b|
  {
    if |b| == 0 {
      assert a + b == a;
    } else {
      var b' := b[..|b| - 1];
      assert (a + b)[..|a + b| - 1] == a + b';
      assert (a + b)[|a + b| - 1] == b[|b| - 1];
      EmittedAppend(a, b');
    }
  }

  /** The loader's result, described line by line. */
  lemma {:induction false} AssembleSound(lines: seq<seq<string>>)
    requires Assemble(lines).Ok?
    ensures Assemble(lines).value.code == Emitted(lines)
    ensures forall l :: l in Assemble(lines).value.labels <==> LastMark(lines, l).Some?
    ensures forall l :: l in Assemble(lines).value.labels ==>
              Assemble(lines).value.labels[l] == |Emitted(lines[..LastMark(lines, l).value])| + 1
  {
    if |lines| > 0 {
      var pre, last := lines[..|lines| - 1], lines[|lines| - 1];
      var b := Assemble(pre).value;
      AssembleSound(pre);
      var a := Assemble(lines).value;
      assert a == AssembleLine(b, last).value;
      forall l | LastMark(pre, l).Some?
        ensures lines[..LastMark(pre, l).value] == pre[..LastMark(pre, l).value]
      {
      }
      assert lines[..|pre|] == pre;
      if |last| > 0 {
        var line := DecodeLine(last).value;
        if line.Mark? {
          assert LastMark(lines, line.name) == Some(|pre|);
          forall l | l != line.name ensures LastMark(lines, l) == LastMark(pre, l) {
            assert !Marks(last, l);
          }
        } else {
          forall l ensures LastMark(lines, l) == LastMark(pre, l) {
            assert !Marks(last, l);
          }
        }
      }
    }
  }

  /** Loading fails exactly when some line fails to decode, and then with the
      error of the first such line. */
  lemma {:induction false} AssembleErrors(lines: seq<seq<string>>)
    ensures Assemble(lines).Ok? <==> forall k :: 0 <= k < |lines| ==> Decodes(lines[k])
    ensures Assemble(lines).Err? ==>
              exists k :: && 0 <= k < |lines|
                          && (forall j :: 0 <= j < k ==> Decodes(lines[j]))
                          && !Decodes(lines[k])
                          && Assemble(lines).error == DecodeLine(lines[k]).error
  {
    if |lines| > 0 {
      var pre, last := lines[..|lines| - 1], lines[|lines| - 1];
      AssembleErrors(pre);
      assert forall k :: 0 <= k < |pre| ==> lines[k] == pre[k];
      if Assemble(pre).Err? {
        var k :| && 0 <= k < |pre|
                 && (forall j :: 0 <= j < k ==> Decodes(pre[j]))
                 && !Decodes(pre[k])
                 && Assemble(pre).error == DecodeLine(pre[k]).error;
        assert !Decodes(lines[k]);
      } else if !Decodes(last) {
        assert !Decodes(lines[|lines| - 1]);
      }
    }
  }

  /** A complete characterisation of successful loading. */
  lemma LoadSound(lines: seq<seq<string>>)
    ensures Load(lines).Ok? <==>
              (forall k :: 0 <= k < |lines| ==> Decodes(lines[k])) && ReturnIsLast(Emitted(lines))
    ensures Load(lines).Ok? ==> Load(lines).value.code == Emitted(lines)
    ensures Load(lines).Ok? ==> forall l :: l in Load(lines).value.labels <==> LastMark(lines, l).Some?
  {
    AssembleErrors(lines);
    if Assemble(lines).Ok? {
      AssembleSound(lines);
    }
  }

  /** The number of `RETURN_VALUE` instructions in `code`. */
  function ReturnCount(code: seq<Instruction>): nat {
    if |code| == 0 then 0
    else ReturnCount(code[..|code| - 1]) + (if code[|code| - 1] == ReturnValue then 1 else 0)
  }

  lemma {:induction false} NoReturns(code: seq<Instruction>)
    ensures ReturnCount(code) == 0 <==> forall k :: 0 <= k < |code| ==> code[k] != ReturnValue
  {
    if |code| > 0 {
      NoReturns(code[..|code| - 1]);
      assert forall k :: 0 <= k < |code| - 1 ==> code[..|code| - 1][k] == code[k];
    }
  }

  /** The post-load check accepts exactly the sequences holding one
      `RETURN_VALUE`, in last place; the empty program is rejected. */
  lemma ExactlyOneReturn(code: seq<Instruction>)
    ensures CheckReturn(code).Ok? <==>
              |code| > 0 && code[|code| - 1] == ReturnValue && ReturnCount(code) == 1
  {
    if |code| > 0 {
      NoReturns(code[..|code| - 1]);
      assert forall k :: 0 <= k < |code| - 1 ==> code[..|code| - 1][k] == code[k];
    }
  }

  /** Loading text lines, each the tokens of a line written out with single
      spaces, is loading those token lines: `split_whitespace` gives every
      line's tokens back, and an empty line stays blank. */
  lemma LoadTextJoined(lines: seq<seq<string>>)
    requires forall k, i :: 0 <= k < |lines| && 0 <= i < |lines[k]| ==> Tokenizer.IsToken(lines[k][i])
    ensures LoadText(seq(|lines|, k requires 0 <= k < |lines| => Tokenizer.Join(lines[k]))) == Load(lines)
  {
    var text := seq(|lines|, k requires 0 <= k < |lines| => Tokenizer.Join(lines[k]));
    var split := seq(|text|, k requires 0 <= k < |text| => Tokenizer.SplitWhitespace(text[k]));
    forall k | 0 <= k < |lines| ensures split[k] == lines[k] {
      Tokenizer.SplitJoin(lines[k]);
    }
    assert split == lines;
  }
}
