/** The mode dispatch of `main` (src/main.rs:89-101): `--from` picks the
    stage the arguments enter at, and the outputs are printed in order. */
module Dispatch {
  import opened Wrappers
  import opened Text
  import opened Foreign
  import opened Labels
  import opened Resolve
  import opened ImageSource

  /** The three values clap accepts for `--from`; the `panic!` arm for any
      other value cannot be reached. */
  datatype Mode = ImageMode | UrlMode | SecretMode

  /** One argument in url or secret mode, with the source `main` gives it. */
  function EntryOutput(env: Collaborators, mode: Mode, arg: string): Output
    requires mode != ImageMode
  {
    if mode == UrlMode then FromPayload(env, arg, Url(arg))
    else FromSecret(env, arg, Secret(arg))
  }

  /** `flat_map` of the image outputs over the arguments. */
  function AllImageOutputs(env: Collaborators, args: seq<string>): seq<Output>
    decreases |args|
  {
    if args == [] then []
    else AllImageOutputs(env, args[..|args| - 1]) + ImageOutputs(env, args[|args| - 1])
  }

  /** Every output of a run, in the order it is printed. */
  function Outputs(env: Collaborators, mode: Mode, args: seq<string>): seq<Output> {
    if mode == ImageMode then AllImageOutputs(env, args)
    else seq(|args|, i requires 0 <= i < |args| => EntryOutput(env, mode, args[i]))
  }

  /** The printed lines of a run: one per output, in order, and a reader
      tells the failed outputs by the leading `-` of their line alone. */
  function Lines(outs: seq<Output>): (lines: seq<string>)
    ensures |lines| == |outs|
    ensures forall i :: 0 <= i < |outs| ==> (IsErrorLine(lines[i]) <==> outs[i].result.Err?)
  {
    assert forall i :: 0 <= i < |outs| ==> (IsErrorLine(Line(outs[i])) <==> outs[i].result.Err?) by {
      forall i | 0 <= i < |outs| {
        ErrorLineIffErr(outs[i]);
      }
    }
    seq(|outs|, i requires 0 <= i < |outs| => Line(outs[i]))
  }

  /** `main` after argument parsing: builds the (lazy) output stream for the
      mode and prints one line per output. */
  method Run(env: Collaborators, mode: Mode, args: seq<string>) returns (lines: seq<string>)
    ensures lines == Lines(Outputs(env, mode, args))
  {
    var outs: seq<Output> := [];
    var i := 0;
    while i < |args|
      invariant 0 <= i <= |args|
      invariant mode == ImageMode ==> outs == AllImageOutputs(env, args[..i])
      invariant mode != ImageMode ==> outs == Outputs(env, mode, args[..i])
    {
      assert args[..i + 1][..i] == args[..i];
      if mode == ImageMode {
        var more := DrainImage(env, args[i]);
        outs := outs + more;
      } else if mode == UrlMode {
        outs := outs + [FromPayload(env, args[i], Url(args[i]))];
      } else {
        outs := outs + [FromSecret(env, args[i], Secret(args[i]))];
      }
      i := i + 1;
    }
    assert args[..i] == args;
    lines := [];
    var k := 0;
    while k < |outs|
      invariant 0 <= k <= |outs|
      invariant lines == Lines(outs[..k])
    {
      assert outs[..k + 1] == outs[..k] + [outs[k]];
      lines := lines + [Line(outs[k])];
      k := k + 1;
    }
    assert outs[..k] == outs;
  }

  /** Url and secret modes give exactly one output per argument, in
      argument order, each for the unchanged argument as its source. */
  lemma OneOutputPerArgument(env: Collaborators, mode: Mode, args: seq<string>)
    requires mode != ImageMode
    ensures var outs := Outputs(env, mode, args);
      |outs| == |args| &&
      forall i :: 0 <= i < |args| ==>
        outs[i].source == (if mode == UrlMode then Url(args[i]) else Secret(args[i])) &&
        outs[i] == EntryOutput(env, mode, args[i])
  {
  }

  lemma {:induction false} ImageOutputsConcatenate(env: Collaborators, a: seq<string>, b: seq<string>)
    ensures AllImageOutputs(env, a + b) == AllImageOutputs(env, a) + AllImageOutputs(env, b)
    decreases |b|
  {
    if b == [] {
      assert a + b == a;
    } else {
      var b0 := b[..|b| - 1];
      assert (a + b)[..|a + b| - 1] == a + b0;
      assert (a + b)[|a + b| - 1] == b[|b| - 1];
      ImageOutputsConcatenate(env, a, b0);
    }
  }

  /** Outputs of consecutive arguments are printed consecutively: the
      outputs of `a + b` are those of `a` followed by those of `b`. */
  lemma OutputsConcatenate(env: Collaborators, mode: Mode, a: seq<string>, b: seq<string>)
    ensures Outputs(env, mode, a + b) == Outputs(env, mode, a) + Outputs(env, mode, b)
  {
    if mode == ImageMode {
      ImageOutputsConcatenate(env, a, b);
    } else {
      var ab := a + b;
      assert forall i :: 0 <= i < |ab| ==> ab[i] == if i < |a| then a[i] else b[i - |a|];
    }
  }

  /** Image mode: each argument's outputs stand in one contiguous block,
      between those of the arguments before it and after it. */
  lemma ImageBlock(env: Collaborators, before: seq<string>, f: string, after: seq<string>)
    ensures Outputs(env, ImageMode, before + [f] + after) ==
      Outputs(env, ImageMode, before) + ImageOutputs(env, f) + Outputs(env, ImageMode, after)
  {
    ImageOutputsConcatenate(env, before + [f], after);
    ImageOutputsConcatenate(env, before, [f]);
    assert [f][..0] == [];
  }

  /** Every output of a run has a well-formed source, and every code is
      below 10^6. */
  lemma {:induction false} OutputsWellFormed(env: Collaborators, mode: Mode, args: seq<string>)
    ensures forall o :: o in Outputs(env, mode, args) ==>
      WellFormed(o.source) && (o.result.Ok? ==> o.result.value < 1000000)
    decreases |args|
  {
    if mode == ImageMode && args != [] {
      var init := args[..|args| - 1];
      OutputsWellFormed(env, mode, init);
      ImageSourcesWellFormed(env, args[|args| - 1]);
      assert Outputs(env, mode, args) == Outputs(env, mode, init) + ImageOutputs(env, args[|args| - 1]);
    }
  }

  /** What a reader can recover from each printed line: a success line
      gives back its code in exactly six digits and, from its label, its
      exact source; an error line is `------<tab><label>: <message>` and is
      recognised by its leading `-`, but does not determine its source
      (`Labels.ErrorLineAmbiguous`). */
  lemma LinesReadBack(env: Collaborators, mode: Mode, args: seq<string>, i: nat)
    requires i < |Outputs(env, mode, args)|
    ensures var o := Outputs(env, mode, args)[i];
      var line := Lines(Outputs(env, mode, args))[i];
      (IsErrorLine(line) <==> o.result.Err?) &&
      (o.result.Ok? ==>
        ParseCode(line) == Some(o.result.value) && ParseLabel(line[7..]) == Some(o.source)) &&
      (o.result.Err? ==>
        ParseCode(line) == None &&
        line == "------\t" + Label(o.source) + ": " + o.result.error)
  {
    var o := Outputs(env, mode, args)[i];
    OutputsWellFormed(env, mode, args);
    assert o in Outputs(env, mode, args);
    ErrorLineIffErr(o);
    LineFields(o);
    LabelRoundTrip(o.source);
  }
}
