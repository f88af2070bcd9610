// The command line of the complex-filter tool: `-i <file>` pairs name the
// inputs, in order, and the one remaining argument names the output. The
// decoding, filtering and encoding that follow are outside the model.

module ComplexFilterCli {
  import opened Wrappers

  type Arg = seq<char>

  /** What the argument scan leaves in input_files and output_file. */
  datatype CommandLine = CommandLine(inputs: seq<Arg>, output: Arg)

  /** The argument split: an `-i` with its operand, or one plain argument. */
  datatype Token = InputOperand(name: Arg) | Plain(arg: Arg)

  /** Whether argv[i] is an `-i` that takes argv[i + 1] as its operand: the
    * operand must exist and not start with a dash (an empty argument
    * starts with its terminating NUL, so it qualifies). */
  function TakesOperand(argv: seq<Arg>, i: nat): (b: bool)
    requires i < |argv|
    ensures b ==> argv[i] == "-i" && i + 1 < |argv|
    ensures i + 1 < |argv| && |argv[i + 1]| > 0 && argv[i + 1][0] == '-' ==> !b
    ensures argv[i] == "-i" && i + 1 < |argv| && argv[i + 1] == "" ==> b
    ensures argv[i] == "-i" && i + 1 < |argv| && |argv[i + 1]| > 0 && argv[i + 1][0] != '-' ==> b
  {
    argv[i] == "-i" && i + 1 < |argv| && (|argv[i + 1]| == 0 || argv[i + 1][0] != '-')
  }

  /** The split of argv[i..] into tokens, left to right. */
  function Tokens(argv: seq<Arg>, i: nat): seq<Token>
    requires i <= |argv|
    decreases |argv| - i
  {
    if i == |argv| then []
    else if TakesOperand(argv, i) then [InputOperand(argv[i + 1])] + Tokens(argv, i + 2)
    else [Plain(argv[i])] + Tokens(argv, i + 1)
  }

  /** The arguments a token sequence stands for. */
  function Spelled(ts: seq<Token>): seq<Arg> {
    if |ts| == 0 then []
    else
      match ts[0]
      case InputOperand(name) => ["-i", name] + Spelled(ts[1..])
      case Plain(arg) => [arg] + Spelled(ts[1..])
  }

  function InputsOf(ts: seq<Token>): seq<Arg> {
    if |ts| == 0 then []
    else (if ts[0].InputOperand? then [ts[0].name] else []) + InputsOf(ts[1..])
  }

  function PlainsOf(ts: seq<Token>): seq<Arg> {
    if |ts| == 0 then []
    else (if ts[0].Plain? then [ts[0].arg] else []) + PlainsOf(ts[1..])
  }

  /** output_file is assigned only while it is still empty, so the plain
    * arguments are accepted exactly when all but the last are empty. */
  predicate AtMostOneOutput(plains: seq<Arg>) {
    forall j :: 0 <= j < |plains| - 1 ==> plains[j] == ""
  }

  function OutputOf(plains: seq<Arg>): Arg {
    if |plains| == 0 then "" else plains[|plains| - 1]
  }

  /** The outcome of the scan, None standing for the usage error (-1). */
  function Expected(argv: seq<Arg>): Option<CommandLine> {
    if |argv| < 4 then None
    else
      var ts := Tokens(argv, 1);
      if AtMostOneOutput(PlainsOf(ts)) then Some(CommandLine(InputsOf(ts), OutputOf(PlainsOf(ts))))
      else None
  }

  /** The split loses and invents no argument. */
  lemma {:induction false} TokensSpellArgv(argv: seq<Arg>, i: nat)
    requires i <= |argv|
    ensures Spelled(Tokens(argv, i)) == argv[i..]
    decreases |argv| - i
  {
    if i < |argv| {
      if TakesOperand(argv, i) {
        TokensSpellArgv(argv, i + 2);
        assert argv[i..] == [argv[i], argv[i + 1]] + argv[i + 2..];
      } else {
        TokensSpellArgv(argv, i + 1);
        assert argv[i..] == [argv[i]] + argv[i + 1..];
      }
    }
  }

  /** No input file starts with a dash unless it is empty. */
  lemma {:induction false} InputsNeverOptions(argv: seq<Arg>, i: nat)
    requires i <= |argv|
    ensures forall f :: f in InputsOf(Tokens(argv, i)) ==> |f| == 0 || f[0] != '-'
    decreases |argv| - i
  {
    if i < |argv| {
      if TakesOperand(argv, i) {
        InputsNeverOptions(argv, i + 2);
      } else {
        InputsNeverOptions(argv, i + 1);
      }
    }
  }

  /** What one token of the split contributes to the inputs and to the
    * plain arguments. */
  lemma TokenStep(argv: seq<Arg>, i: nat)
    requires i < |argv|
    ensures TakesOperand(argv, i) ==>
      InputsOf(Tokens(argv, i)) == [argv[i + 1]] + InputsOf(Tokens(argv, i + 2)) &&
      PlainsOf(Tokens(argv, i)) == PlainsOf(Tokens(argv, i + 2))
    ensures !TakesOperand(argv, i) ==>
      InputsOf(Tokens(argv, i)) == InputsOf(Tokens(argv, i + 1)) &&
      PlainsOf(Tokens(argv, i)) == [argv[i]] + PlainsOf(Tokens(argv, i + 1))
  {
    var ts := Tokens(argv, i);
    if TakesOperand(argv, i) {
      assert ts[1..] == Tokens(argv, i + 2);
    } else {
      assert ts[1..] == Tokens(argv, i + 1);
    }
  }

  /** Once output_file holds something, any later plain argument fails. */
  lemma SecondOutputFails(plains: seq<Arg>, p: Arg, rest: seq<Arg>)
    requires |plains| > 0 && plains[|plains| - 1] != ""
    ensures !AtMostOneOutput(plains + [p] + rest)
  {
    assert (plains + [p] + rest)[|plains| - 1] == plains[|plains| - 1];
  }

  /** Whether the scan state (input files so far, output file so far, and
    * the plain arguments seen so far) accounts for argv[1..i]. */
  ghost predicate Scanned(argv: seq<Arg>, i: nat, inputs: seq<Arg>, output: Arg, plains: seq<Arg>)
    requires 1 <= i <= |argv|
  {
    InputsOf(Tokens(argv, 1)) == inputs + InputsOf(Tokens(argv, i)) &&
    PlainsOf(Tokens(argv, 1)) == plains + PlainsOf(Tokens(argv, i)) &&
    AtMostOneOutput(plains) && output == OutputOf(plains)
  }

  /** One pass of the loop body, at argv[i]. */
  method ScanOne(argv: seq<Arg>, i: nat, inputs: seq<Arg>, output: Arg, ghost plains: seq<Arg>)
    returns (ok: bool, next: nat, inputs': seq<Arg>, output': Arg, ghost plains': seq<Arg>)
    requires 1 <= i < |argv|
    requires Scanned(argv, i, inputs, output, plains)
    ensures ok ==> i < next <= |argv| && Scanned(argv, next, inputs', output', plains')
    ensures !ok ==> !AtMostOneOutput(PlainsOf(Tokens(argv, 1)))
  {
    TokenStep(argv, i);
    next, inputs', output', plains' := i + 1, inputs, output, plains;
    ok := true;
    if argv[i] == "-i" && i + 1 < |argv| && (|argv[i + 1]| == 0 || argv[i + 1][0] != '-') {
      assert inputs + InputsOf(Tokens(argv, i)) == (inputs + [argv[i + 1]]) + InputsOf(Tokens(argv, i + 2));
      inputs' := inputs + [argv[i + 1]];
      next := i + 2;
    } else if output == "" {
      assert plains + PlainsOf(Tokens(argv, i)) == (plains + [argv[i]]) + PlainsOf(Tokens(argv, i + 1));
      output' := argv[i];
      plains' := plains + [argv[i]];
    } else {
      assert plains + PlainsOf(Tokens(argv, i)) == plains + [argv[i]] + PlainsOf(Tokens(argv, i + 1));
      SecondOutputFails(plains, argv[i], PlainsOf(Tokens(argv, i + 1)));
      ok := false;
    }
  }

  /** The argv loop of the tool. */
  method SplitArgs(argv: seq<Arg>) returns (r: Option<CommandLine>)
    ensures |argv| < 4 ==> r.None?
    ensures r == Expected(argv)
  {
    if |argv| < 4 {
      return None;
    }
    var inputs: seq<Arg> := [];
    var output: Arg := "";
    ghost var plains: seq<Arg> := [];
    var i := 1;
    while i < |argv|
      invariant 1 <= i <= |argv|
      invariant Scanned(argv, i, inputs, output, plains)
      decreases |argv| - i
    {
      var ok;
      ok, i, inputs, output, plains := ScanOne(argv, i, inputs, output, plains);
      if !ok {
        return None;
      }
    }
    assert InputsOf(Tokens(argv, i)) == [] && PlainsOf(Tokens(argv, i)) == [];
    assert InputsOf(Tokens(argv, 1)) == inputs by {
      assert inputs + [] == inputs;
    }
    assert PlainsOf(Tokens(argv, 1)) == plains by {
      assert plains + [] == plains;
    }
    return Some(CommandLine(inputs, output));
  }

  // ---------------------------------------------------------------------
  // Cases of the scan
  // ---------------------------------------------------------------------

  /** The documented usage: two inputs, then the output. */
  lemma UsageSplit()
    ensures Expected(["complex_filter", "-i", "logo.png", "-i", "in.mp4", "out.mp4"]) ==
      Some(CommandLine(["logo.png", "in.mp4"], "out.mp4"))
  {
    var argv: seq<Arg> := ["complex_filter", "-i", "logo.png", "-i", "in.mp4", "out.mp4"];
    assert InputsOf(Tokens(argv, 6)) == [] && PlainsOf(Tokens(argv, 6)) == [];
    TokenStep(argv, 5);
    assert InputsOf(Tokens(argv, 5)) == [];
    assert PlainsOf(Tokens(argv, 5)) == ["out.mp4"] + [] == ["out.mp4"];
    TokenStep(argv, 3);
    assert InputsOf(Tokens(argv, 3)) == ["in.mp4"] + [] == ["in.mp4"];
    TokenStep(argv, 1);
    assert InputsOf(Tokens(argv, 1)) == ["logo.png"] + ["in.mp4"] == ["logo.png", "in.mp4"];
    assert PlainsOf(Tokens(argv, 1)) == ["out.mp4"];
  }

  /** An `-i` with nothing usable after it is itself taken as the output. */
  lemma DanglingFlagIsOutput()
    ensures Expected(["complex_filter", "-i", "in.mp4", "-i"]) == Some(CommandLine(["in.mp4"], "-i"))
  {
    var argv: seq<Arg> := ["complex_filter", "-i", "in.mp4", "-i"];
    assert InputsOf(Tokens(argv, 4)) == [] && PlainsOf(Tokens(argv, 4)) == [];
    TokenStep(argv, 3);
    assert InputsOf(Tokens(argv, 3)) == [];
    assert PlainsOf(Tokens(argv, 3)) == ["-i"] + [] == ["-i"];
    TokenStep(argv, 1);
    assert InputsOf(Tokens(argv, 1)) == ["in.mp4"] + [] == ["in.mp4"];
    assert PlainsOf(Tokens(argv, 1)) == ["-i"];
  }

  /** An `-i` followed by an option-like argument takes no operand; both
    * become plain arguments, and the second is refused. */
  lemma DashOperandRefused()
    ensures Expected(["complex_filter", "-i", "-x", "out.mp4"]) == None
  {
    var argv: seq<Arg> := ["complex_filter", "-i", "-x", "out.mp4"];
    TokenStep(argv, 2);
    TokenStep(argv, 1);
    assert PlainsOf(Tokens(argv, 1))[0] == "-i";
  }

  // ---------------------------------------------------------------------
  // The argument-count guard
  // ---------------------------------------------------------------------

  /** The scan accepts a command line with a single input file, although
    * the filter graph the tool then builds links a second input source. */
  lemma ArgcGuardAdmitsOneInput()
    ensures var r := Expected(["complex_filter", "-i", "in.mp4", "out.mp4"]);
      r.Some? && |r.value.inputs| < 2
  {
    var argv: seq<Arg> := ["complex_filter", "-i", "in.mp4", "out.mp4"];
    assert InputsOf(Tokens(argv, 4)) == [] && PlainsOf(Tokens(argv, 4)) == [];
    TokenStep(argv, 3);
    assert InputsOf(Tokens(argv, 3)) == [];
    assert PlainsOf(Tokens(argv, 3)) == ["out.mp4"] + [] == ["out.mp4"];
    TokenStep(argv, 1);
    assert InputsOf(Tokens(argv, 1)) == ["in.mp4"] + [] == ["in.mp4"];
    assert PlainsOf(Tokens(argv, 1)) == ["out.mp4"];
  }

  /** The scan followed by the check the usage line implies: at least the
    * two inputs the filter graph reads and a non-empty output name. */
  method SplitArgsChecked(argv: seq<Arg>) returns (r: Option<CommandLine>)
    ensures r.Some? ==> |r.value.inputs| >= 2 && r.value.output != ""
    ensures r.Some? ==> r == Expected(argv)
    ensures Expected(argv).Some? && |Expected(argv).value.inputs| >= 2 && Expected(argv).value.output != "" ==>
      r == Expected(argv)
  {
    r := SplitArgs(argv);
    if r.Some? && (|r.value.inputs| < 2 || r.value.output == "") {
      r := None;
    }
  }
}
