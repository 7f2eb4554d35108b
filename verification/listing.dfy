/** Program listings: a sequence of instructions and label definitions,
    printed one per line in canonical spelling. Loading a printed listing
    recovers its instructions and gives each label one more than the number
    of instructions listed before it; this is the loader's round trip. */
module Listing {
  import opened Wrappers
  import opened Bytecode
  import opened Loader

  datatype Entry = Instr(instr: Instruction) | Label(name: string)

  function Print(entry: Entry): seq<string> {
    match entry
    case Instr(i) => Encode(i)
    case Label(l) => ["LABEL", l]
  }

  function PrintAll(es: seq<Entry>): seq<seq<string>> {
    seq(|es|, k requires 0 <= k < |es| => Print(es[k]))
  }

  /** The instructions of a listing, in order. */
  function Instructions(es: seq<Entry>): seq<Instruction> {
    if |es| == 0 then []
    else Instructions(es[..|es| - 1]) + (if es[|es| - 1].Instr? then [es[|es| - 1].instr] else [])
  }

  /** Each label's value: the number of instructions listed before its last
      definition, plus one. */
  function Labels(es: seq<Entry>): map<string, nat> {
    if |es| == 0 then map[]
    else if es[|es| - 1].Label? then Labels(es[..|es| - 1])[es[|es| - 1].name := |Instructions(es[..|es| - 1])| + 1]
    else Labels(es[..|es| - 1])
  }

  /** Listing one more entry extends the instructions or redefines a label. */
  lemma Snoc(es: seq<Entry>, e: Entry)
    ensures Instructions(es + [e]) == Instructions(es) + (if e.Instr? then [e.instr] else [])
    ensures Labels(es + [e]) ==
              if e.Label? then Labels(es)[e.name := |Instructions(es)| + 1] else Labels(es)
  {
    assert (es + [e])[..|es|] == es;
  }

  /** A listing of instructions with no label definitions. */
  function Plain(code: seq<Instruction>): seq<Entry> {
    seq(|code|, k requires 0 <= k < |code| => Instr(code[k]))
  }

  /** Listing more instructions appends them and defines no label. */
  lemma {:induction false} AppendPlain(es: seq<Entry>, code: seq<Instruction>)
    ensures Instructions(es + Plain(code)) == Instructions(es) + code
    ensures Labels(es + Plain(code)) == Labels(es)
    decreases |code|
  {
    if |code| == 0 {
      assert es + Plain(code) == es;
    } else {
      var pre := code[..|code| - 1];
      AppendPlain(es, pre);
      assert es + Plain(code) == (es + Plain(pre)) + [Instr(code[|code| - 1])];
      Snoc(es + Plain(pre), Instr(code[|code| - 1]));
      assert pre + [code[|code| - 1]] == code;
    }
  }

  /** A label defined just before instruction `j` stores `j + 1`. */
  lemma LabelledAt(code: seq<Instruction>, j: nat, l: string)
    requires j <= |code|
    ensures Instructions(Plain(code[..j]) + [Label(l)] + Plain(code[j..])) == code
    ensures Labels(Plain(code[..j]) + [Label(l)] + Plain(code[j..])) == map[l := j + 1]
  {
    AppendPlain([], code[..j]);
    assert [] + Plain(code[..j]) == Plain(code[..j]);
    Snoc(Plain(code[..j]), Label(l));
    AppendPlain(Plain(code[..j]) + [Label(l)], code[j..]);
    assert code[..j] + code[j..] == code;
  }

  lemma LabelledWellFormed(code: seq<Instruction>, j: nat, l: string)
    requires j <= |code| && WellFormedCode(code)
    ensures WellFormedListing(Plain(code[..j]) + [Label(l)] + Plain(code[j..]))
  {
    var es := Plain(code[..j]) + [Label(l)] + Plain(code[j..]);
    forall k | 0 <= k < |es| && es[k].Instr? ensures WellFormed(es[k].instr) {
      if k < j {
        assert es[k] == Instr(code[k]);
      } else {
        assert es[k] == Instr(code[j..][k - j - 1]);
      }
    }
  }

  /** A well-formed program holding its one `RETURN_VALUE` at the end,
      printed without labels, loads back to itself. */
  lemma LoadPlain(code: seq<Instruction>)
    requires WellFormedCode(code) && ReturnIsLast(code)
    ensures Load(PrintAll(Plain(code))) == Ok(Program(code, map[]))
  {
    AppendPlain([], code);
    assert [] + Plain(code) == Plain(code);
    assert WellFormedListing(Plain(code));
    LoadPrinted(Plain(code));
    var r := Load(PrintAll(Plain(code)));
    assert r.Ok? && r.value.code == code && r.value.labels == map[];
  }

  /** The same program with one label defined before instruction `j` loads
      back with that label storing `j + 1`. */
  lemma LoadLabelled(code: seq<Instruction>, j: nat, l: string)
    requires WellFormedCode(code) && ReturnIsLast(code) && j <= |code|
    ensures Load(PrintAll(Plain(code[..j]) + [Label(l)] + Plain(code[j..]))) == Ok(Program(code, map[l := j + 1]))
  {
    LabelledAt(code, j, l);
    LabelledWellFormed(code, j, l);
    var es := Plain(code[..j]) + [Label(l)] + Plain(code[j..]);
    LoadPrinted(es);
    var r := Load(PrintAll(es));
    assert r.Ok? && r.value.code == code && r.value.labels == map[l := j + 1];
  }

  predicate WellFormedListing(es: seq<Entry>) {
    forall k :: 0 <= k < |es| ==> es[k].Instr? ==> WellFormed(es[k].instr)
  }

  /** Assembling a printed listing never fails and yields the listing's
      instructions and labels. */
  lemma {:induction false} AssemblePrinted(es: seq<Entry>)
    requires WellFormedListing(es)
    ensures Assemble(PrintAll(es)) == Ok(Assembly(Instructions(es), Labels(es), |Instructions(es)|))
  {
    if |es| > 0 {
      var pre, e := es[..|es| - 1], es[|es| - 1];
      var lines := PrintAll(es);
      assert lines[..|lines| - 1] == PrintAll(pre);
      assert lines[|lines| - 1] == Print(e);
      AssemblePrinted(pre);
      match e
      case Instr(i) =>
        DecodeEncode(i);
        assert |Encode(i)| > 0;
      case Label(l) =>
        var a := Assemble(PrintAll(pre)).value;
        assert DecodeLine(["LABEL", l]) == Ok(Mark(l));
        var r := AssembleLine(a, ["LABEL", l]);
        assert r.Ok? && r.value.code == a.code && r.value.instCount == a.instCount;
        assert r.value.labels == a.labels[l := a.instCount + 1];
        assert Instructions(es) == Instructions(pre);
    }
  }

  /** A printed listing loads exactly when its instructions end in the one
      and only `RETURN_VALUE`, and then loads to its instructions and labels. */
  lemma LoadPrinted(es: seq<Entry>)
    requires WellFormedListing(es)
    ensures Load(PrintAll(es)).Ok? <==> ReturnIsLast(Instructions(es))
    ensures Load(PrintAll(es)).Ok? ==> Load(PrintAll(es)).value == Program(Instructions(es), Labels(es))
  {
    AssemblePrinted(es);
  }
}
