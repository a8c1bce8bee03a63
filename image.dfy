/** The image stage: `FromImageIterator::new` and `next`
    (src/main.rs:104-191). Opening the image, creating the QR decoder and
    locating symbols each may fail for the whole image; a located symbol may
    fail on its own and is then dropped. */
module ImageSource {
  import opened Wrappers
  import opened Utf8
  import opened Foreign
  import opened Labels
  import opened Resolve

  const FailedToDecode := "Failed to decode: "
  const FailedToCreateDecoder := "Failed to create QR code decoder: "
  const FailedToDecodeQrCodes := "Failed to decode QR codes: "

  /** The payloads of the symbols that decoded (`filter_map`), in the order
      the locator reported them. */
  function Survivors(symbols: seq<Result<seq<byte>, string>>): seq<seq<byte>>
    decreases |symbols|
  {
    if symbols == [] then []
    else
      var last := symbols[|symbols| - 1];
      Survivors(symbols[..|symbols| - 1]) + (if last.Ok? then [last.value] else [])
  }

  /** Positions of the symbols that decoded, in increasing order. */
  function OkPositions(symbols: seq<Result<seq<byte>, string>>): seq<nat>
    decreases |symbols|
  {
    if symbols == [] then []
    else
      var n := |symbols| - 1;
      OkPositions(symbols[..n]) + (if symbols[n].Ok? then [n] else [])
  }

  lemma {:induction false} OkPositionsCount(symbols: seq<Result<seq<byte>, string>>)
    ensures |OkPositions(symbols)| == |Survivors(symbols)|
    ensures forall k :: 0 <= k < |OkPositions(symbols)| ==> OkPositions(symbols)[k] < |symbols|
    decreases |symbols|
  {
    if symbols != [] {
      OkPositionsCount(symbols[..|symbols| - 1]);
    }
  }

  lemma {:induction false} OkPositionsHoldSurvivors(symbols: seq<Result<seq<byte>, string>>, k: nat)
    requires k < |OkPositions(symbols)|
    ensures OkPositions(symbols)[k] < |symbols| && k < |Survivors(symbols)|
    ensures symbols[OkPositions(symbols)[k]] == Ok(Survivors(symbols)[k])
    decreases |symbols|
  {
    var n := |symbols| - 1;
    var init := symbols[..n];
    OkPositionsCount(symbols);
    OkPositionsCount(init);
    if k < |OkPositions(init)| {
      OkPositionsHoldSurvivors(init, k);
      assert OkPositions(symbols)[k] == OkPositions(init)[k];
      assert Survivors(symbols)[k] == Survivors(init)[k];
      assert symbols[OkPositions(init)[k]] == init[OkPositions(init)[k]];
    }
  }

  lemma {:induction false} OkPositionsIncrease(symbols: seq<Result<seq<byte>, string>>)
    ensures forall a, b :: 0 <= a < b < |OkPositions(symbols)| ==>
      OkPositions(symbols)[a] < OkPositions(symbols)[b]
    decreases |symbols|
  {
    if symbols != [] {
      var init := symbols[..|symbols| - 1];
      OkPositionsIncrease(init);
      OkPositionsCount(init);
    }
  }

  lemma {:induction false} OkPositionsComplete(symbols: seq<Result<seq<byte>, string>>, j: nat)
    requires j < |symbols| && symbols[j].Ok?
    ensures j in OkPositions(symbols)
    decreases |symbols|
  {
    var n := |symbols| - 1;
    var init := symbols[..n];
    if j < n {
      assert init[j] == symbols[j];
      OkPositionsComplete(init, j);
    } else {
      assert OkPositions(symbols)[|OkPositions(symbols)| - 1] == n;
    }
  }

  /** `Survivors` keeps exactly the decoded symbols, each once, in discovery
      order: the k-th survivor is the payload at the k-th decoded position,
      the positions increase, and every decoded position is among them. */
  lemma SurvivorsAreTheOkSymbols(symbols: seq<Result<seq<byte>, string>>)
    ensures var pos := OkPositions(symbols);
      |pos| == |Survivors(symbols)| &&
      (forall k :: 0 <= k < |pos| ==>
        pos[k] < |symbols| && symbols[pos[k]] == Ok(Survivors(symbols)[k])) &&
      (forall a, b :: 0 <= a < b < |pos| ==> pos[a] < pos[b]) &&
      (forall j :: 0 <= j < |symbols| && symbols[j].Ok? ==> j in pos)
  {
    OkPositionsCount(symbols);
    OkPositionsIncrease(symbols);
    forall k | 0 <= k < |OkPositions(symbols)|
      ensures symbols[OkPositions(symbols)[k]] == Ok(Survivors(symbols)[k])
    {
      OkPositionsHoldSurvivors(symbols, k);
    }
    forall j | 0 <= j < |symbols| && symbols[j].Ok?
      ensures j in OkPositions(symbols)
    {
      OkPositionsComplete(symbols, j);
    }
  }

  /** The pairs `new` stores: the k-th surviving payload with
      `QrCode{filename, k, count}`, `count` being the number of survivors. */
  function Labelled(filename: string, payloads: seq<seq<byte>>): seq<(seq<byte>, Source)> {
    seq(|payloads|, k requires 0 <= k < |payloads| => (payloads[k], QrCode(filename, k, |payloads|)))
  }

  /** The outcome of each pair, in order: what the iterator yields once the
      image has been scanned. */
  function ResolveAll(env: Collaborators, pairs: seq<(seq<byte>, Source)>): seq<Output>
    decreases |pairs|
  {
    if pairs == [] then []
    else [FromRawPayload(env, pairs[0].0, pairs[0].1)] + ResolveAll(env, pairs[1..])
  }

  /** One outcome per pair: the k-th is `from_raw_payload` of the k-th
      pair. */
  lemma {:induction false} ResolveAllAt(env: Collaborators, pairs: seq<(seq<byte>, Source)>)
    ensures |ResolveAll(env, pairs)| == |pairs|
    ensures forall k :: 0 <= k < |pairs| ==>
      ResolveAll(env, pairs)[k] == FromRawPayload(env, pairs[k].0, pairs[k].1)
    decreases |pairs|
  {
    if pairs != [] {
      ResolveAllAt(env, pairs[1..]);
    }
  }

  function ImageFailure(filename: string, message: string): Output {
    Output(Image(filename), Err(message))
  }

  /** Everything `from_image_filename(filename)` yields, in order. */
  function ImageOutputs(env: Collaborators, filename: string): seq<Output> {
    match env.openImage(filename)
    case Err(e) => [ImageFailure(filename, FailedToDecode + e)]
    case Ok(luma) =>
      match env.createDecoder(filename)
      case Err(e) => [ImageFailure(filename, FailedToCreateDecoder + e)]
      case Ok(_) =>
        match env.locate(luma)
        case Err(e) => [ImageFailure(filename, FailedToDecodeQrCodes + e)]
        case Ok(symbols) => ResolveAll(env, Labelled(filename, Survivors(symbols)))
  }

  /** The two passes of `new` over the located symbols: `filter_map` keeps
      the decoded payloads, then `enumerate` labels each with its position
      and the number of survivors. */
  method LabelSymbols(filename: string, symbols: seq<Result<seq<byte>, string>>)
    returns (pairs: seq<(seq<byte>, Source)>)
    ensures pairs == Labelled(filename, Survivors(symbols))
  {
    var payloads: seq<seq<byte>> := [];
    var i := 0;
    while i < |symbols|
      invariant 0 <= i <= |symbols|
      invariant payloads == Survivors(symbols[..i])
    {
      assert symbols[..i + 1][..i] == symbols[..i];
      if symbols[i].Ok? {
        payloads := payloads + [symbols[i].value];
      }
      i := i + 1;
    }
    assert symbols[..i] == symbols;
    var count := |payloads|;
    pairs := [];
    var k := 0;
    while k < count
      invariant 0 <= k <= count
      invariant |pairs| == k
      invariant forall j :: 0 <= j < k ==> pairs[j] == (payloads[j], QrCode(filename, j, count))
    {
      pairs := pairs + [(payloads[k], QrCode(filename, k, count))];
      k := k + 1;
    }
  }

  /** A failure to open the image, to create the decoder or to locate
      symbols yields exactly one output, for the image, whose message starts
      with the stage's prefix and ends with the library's error text. */
  lemma ImageFailureOutcome(env: Collaborators, filename: string)
    requires env.openImage(filename).Err? ||
      env.createDecoder(filename).Err? ||
      env.locate(env.openImage(filename).value).Err?
    ensures var outs := ImageOutputs(env, filename);
      |outs| == 1 && outs[0].source == Image(filename) && outs[0].result.Err? &&
      var message := outs[0].result.error;
      (env.openImage(filename).Err? ==>
        message == FailedToDecode + env.openImage(filename).error) &&
      (env.openImage(filename).Ok? && env.createDecoder(filename).Err? ==>
        message == FailedToCreateDecoder + env.createDecoder(filename).error) &&
      (env.openImage(filename).Ok? && env.createDecoder(filename).Ok? ==>
        message == FailedToDecodeQrCodes + env.locate(env.openImage(filename).value).error)
  {
  }

  /** When symbols were located: one output per decoded symbol, the k-th
      being the resolution of the k-th decoded payload labelled
      `QrCode{filename, k, count}`, `count` being the number of decoded
      symbols; no symbols give no output and no error. */
  lemma ImageSuccessOutcome(env: Collaborators, filename: string, symbols: seq<Result<seq<byte>, string>>)
    requires env.openImage(filename).Ok? && env.createDecoder(filename).Ok?
    requires env.locate(env.openImage(filename).value) == Ok(symbols)
    ensures var outs := ImageOutputs(env, filename);
      var payloads := Survivors(symbols);
      |outs| == |payloads| == |OkPositions(symbols)| &&
      (forall k :: 0 <= k < |outs| ==>
        outs[k] == FromRawPayload(env, payloads[k], QrCode(filename, k, |payloads|)) &&
        OkPositions(symbols)[k] < |symbols| && symbols[OkPositions(symbols)[k]] == Ok(payloads[k])) &&
      (symbols == [] ==> outs == [])
  {
    SurvivorsAreTheOkSymbols(symbols);
    ResolveAllAt(env, Labelled(filename, Survivors(symbols)));
  }

  /** Every output of an image is for that image (its source is
      `Image{filename}` or a QR code of that file), every QR source it
      carries has its index below its count, and every code is below
      10^6. */
  lemma ImageSourcesWellFormed(env: Collaborators, filename: string)
    ensures forall o :: o in ImageOutputs(env, filename) ==>
      (o.source == Image(filename) || (o.source.QrCode? && o.source.imageFilename == filename)) &&
      WellFormed(o.source)
    ensures forall o :: o in ImageOutputs(env, filename) && o.source.Image? ==> o.result.Err?
    ensures forall o :: o in ImageOutputs(env, filename) && o.result.Ok? ==> o.result.value < 1000000
  {
    var image := env.openImage(filename);
    if image.Ok? && env.createDecoder(filename).Ok? && env.locate(image.value).Ok? {
      ResolveAllAt(env, Labelled(filename, Survivors(env.locate(image.value).value)));
    }
  }

  /** `FromImageIterator`: either the single failure output (`Err(once)`)
      or the labelled pairs and how far the `IntoIter` over them has got. */
  class FromImageIterator {
    const env: Collaborators
    /** True for the `Err` variant. */
    const failed: bool
    /** The `Once` of the `Err` variant; None once it has been taken. */
    var once: Option<Output>
    /** The vector of the `Ok` variant. */
    const pairs: seq<(seq<byte>, Source)>
    /** How many pairs the `IntoIter` has handed out. */
    var position: nat

    /** What the iterator has still to yield. */
    ghost var Pending: seq<Output>

    ghost predicate Valid()
      reads this
    {
      position <= |pairs| && (failed ==> pairs == []) && (!failed ==> once == None) &&
      Pending == (if failed then (if once.Some? then [once.value] else [])
                  else ResolveAll(env, pairs[position..]))
    }

    /** `FromImageIterator::new(filename)`. */
    constructor (env: Collaborators, filename: string)
      ensures Valid() && this.env == env
      ensures Pending == ImageOutputs(env, filename)
    {
      this.env := env;
      position := 0;
      var image := env.openImage(filename);
      if image.Err? {
        failed, once, pairs, Pending := true, Some(ImageFailure(filename, FailedToDecode + image.error)), [], [ImageFailure(filename, FailedToDecode + image.error)];
      } else {
        var decoder := env.createDecoder(filename);
        if decoder.Err? {
          failed, once, pairs, Pending := true, Some(ImageFailure(filename, FailedToCreateDecoder + decoder.error)), [], [ImageFailure(filename, FailedToCreateDecoder + decoder.error)];
        } else {
          var located := env.locate(image.value);
          if located.Err? {
            failed, once, pairs, Pending := true, Some(ImageFailure(filename, FailedToDecodeQrCodes + located.error)), [], [ImageFailure(filename, FailedToDecodeQrCodes + located.error)];
          } else {
            var labelled := LabelSymbols(filename, located.value);
            failed, once, pairs := false, None, labelled;
            assert labelled[0..] == labelled;
            Pending := ResolveAll(env, labelled);
          }
        }
      }
    }

    /** `Iterator::next`: the next outcome, resolving its payload only now;
        None, and no change, once everything has been yielded. */
    method Next() returns (r: Option<Output>)
      requires Valid()
      modifies this
      ensures Valid()
      ensures old(Pending) == [] ==> r == None && Pending == []
      ensures old(Pending) != [] ==> r == Some(old(Pending)[0]) && Pending == old(Pending)[1..]
    {
      if failed {
        r := once;
        once := None;
        Pending := [];
      } else if position < |pairs| {
        var (raw, source) := pairs[position];
        r := Some(FromRawPayload(env, raw, source));
        assert pairs[position..][1..] == pairs[position + 1..];
        position := position + 1;
        Pending := Pending[1..];
      } else {
        r := None;
      }
    }
  }

  /** A consumer's `for` loop: it sees exactly what the iterator had still
      to yield, in order, and leaves it exhausted. */
  method Drain(it: FromImageIterator) returns (outs: seq<Output>)
    requires it.Valid()
    modifies it
    ensures it.Valid() && it.Pending == []
    ensures outs == old(it.Pending)
  {
    ghost var all := it.Pending;
    outs := [];
    while true
      invariant it.Valid()
      invariant outs + it.Pending == all
      decreases |it.Pending|
    {
      var next := it.Next();
      if next.None? {
        break;
      }
      ConsumeOne(outs, next.value, it.Pending, all);
      outs := outs + [next.value];
    }
  }

  /** Moving the yielded element from what is pending to what was seen. */
  lemma ConsumeOne<T>(seen: seq<T>, x: T, rest: seq<T>, all: seq<T>)
    requires seen + ([x] + rest) == all
    ensures (seen + [x]) + rest == all
  {
    assert seen + ([x] + rest) == (seen + [x]) + rest;
  }

  /** `from_image_filename` consumed to its end: exactly the image's
      outputs, in order. */
  method DrainImage(env: Collaborators, filename: string) returns (outs: seq<Output>)
    ensures outs == ImageOutputs(env, filename)
  {
    var it := new FromImageIterator(env, filename);
    outs := Drain(it);
  }
}
