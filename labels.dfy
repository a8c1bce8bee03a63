/** Provenance labels and output lines: `Source`, `Output` and their
    `to_string` implementations (src/main.rs:8-61). */
module Labels {
  import opened Wrappers
  import opened Text

  /** Where one outcome came from. `index` and `outOf` are `usize` in the
      source; they count QR symbols of one image and never come near the
      width limit, so they are naturals here. */
  datatype Source =
    | Image(filename: string)
    | QrCode(imageFilename: string, index: nat, outOf: nat)
    | Url(url: string)
    | Secret(secret: string)

  /** One labelled outcome: a code (`u64`) or an error message. */
  datatype Output = Output(source: Source, result: Result<nat, string>)

  /** The pipeline only builds QR sources whose index is a position among
      `outOf` symbols. */
  predicate WellFormed(s: Source) {
    s.QrCode? ==> s.index < s.outOf
  }

  /** `Source::to_string`. */
  function Label(s: Source): string {
    match s
    case Image(f) => "image " + f
    case QrCode(f, i, n) =>
      if n == 1 then "qr " + f
      else "qr[" + Pad0(Dec(i + 1), |Dec(n)|) + "/" + Dec(n) + "] " + f
    case Url(u) => "url " + u
    case Secret(t) => "secret " + t
  }

  /** `Output::to_string`: `{:06}` then a tab and the label, or six dashes,
      a tab, the label, a colon and the message. */
  function Line(o: Output): string {
    match o.result
    case Ok(r) => Pad0(Dec(r), 6) + "\t" + Label(o.source)
    case Err(e) => "------\t" + Label(o.source) + ": " + e
  }

  /** The position field of a multi-symbol QR label is `index + 1` in
      decimal, zero-padded to the width of the count, and it is exactly
      that wide whenever the index is in range. */
  lemma QrPositionField(i: nat, n: nat)
    ensures var field := Pad0(Dec(i + 1), |Dec(n)|);
      |field| > 0 && AllDigits(field) && Value(field) == i + 1 &&
      (i < n ==> |field| == |Dec(n)|)
  {
    PaddedDecimal(i + 1, |Dec(n)|);
    if i < n {
      DecLengthMonotone(i + 1, n);
    }
  }

  /** The label of a QR source with a count other than one. */
  lemma QrLabelField(f: string, i: nat, n: nat)
    requires n != 1
    ensures var field := Pad0(Dec(i + 1), |Dec(n)|);
      Label(QrCode(f, i, n)) == "qr[" + field + "/" + Dec(n) + "] " + f &&
      AllDigits(field) && Value(field) == i + 1 &&
      (i < n ==> |field| == |Dec(n)|)
  {
    QrPositionField(i, n);
  }

  /** Reads a label back into the source it describes. */
  function ParseLabel(l: string): Option<Source> {
    if HasPrefix(l, "image ") then Some(Image(l[6..]))
    else if HasPrefix(l, "url ") then Some(Url(l[4..]))
    else if HasPrefix(l, "secret ") then Some(Secret(l[7..]))
    else if HasPrefix(l, "qr ") then Some(QrCode(l[3..], 0, 1))
    else if HasPrefix(l, "qr[") then ParseQrPosition(l[3..])
    else None
  }

  /** Reads `<index+1>/<count>] <filename>`. */
  function ParseQrPosition(r: string): Option<Source> {
    var k := DigitRun(r);
    if k == 0 || k == |r| || r[k] != '/' || Value(r[..k]) == 0 then None
    else ParseQrCount(Value(r[..k]) - 1, r[k + 1..])
  }

  /** Reads `<count>] <filename>`. */
  function ParseQrCount(index: nat, r: string): Option<Source> {
    var m := DigitRun(r);
    if m == 0 || m + 2 > |r| || r[m] != ']' || r[m + 1] != ' ' then None
    else Some(QrCode(r[m + 2..], index, Value(r[..m])))
  }

  lemma ParseQrCountOf(d: string, f: string, i: nat)
    requires |d| > 0 && AllDigits(d)
    ensures ParseQrCount(i, d + "] " + f) == Some(QrCode(f, i, Value(d)))
  {
    var t := "] " + f;
    var r := d + t;
    assert d + "] " + f == r;
    DigitRunOf(d, t);
    assert r[..|d|] == d;
    assert r[|d|] == t[0] == ']' && r[|d| + 1] == t[1] == ' ';
    assert r[|d| + 2..] == t[2..] == f;
  }

  lemma ParseQrPositionSplit(p: string, tail: string)
    requires |p| > 0 && AllDigits(p) && Value(p) > 0
    ensures ParseQrPosition(p + "/" + tail) == ParseQrCount(Value(p) - 1, tail)
  {
    var t := "/" + tail;
    var r := p + t;
    assert p + "/" + tail == r;
    DigitRunOf(p, t);
    assert r[..|p|] == p;
    assert r[|p|] == t[0] == '/';
    assert r[|p| + 1..] == t[1..] == tail;
  }

  /** `<position>/<count>] <filename>` with two non-empty digit strings
      reads back to the file, `position - 1` and `count`. */
  lemma ParseQrFields(p: string, d: string, f: string)
    requires |p| > 0 && AllDigits(p) && Value(p) > 0
    requires |d| > 0 && AllDigits(d)
    ensures ParseQrPosition(p + "/" + d + "] " + f) == Some(QrCode(f, Value(p) - 1, Value(d)))
  {
    var tail := d + "] " + f;
    assert p + "/" + d + "] " + f == p + "/" + tail;
    ParseQrPositionSplit(p, tail);
    ParseQrCountOf(d, f, Value(p) - 1);
  }

  lemma ParseQrPositionOf(f: string, i: nat, n: nat)
    requires n != 1 && i < n
    ensures ParseQrPosition(Pad0(Dec(i + 1), |Dec(n)|) + "/" + Dec(n) + "] " + f) == Some(QrCode(f, i, n))
  {
    var p, d := Pad0(Dec(i + 1), |Dec(n)|), Dec(n);
    QrPositionField(i, n);
    assert |p| > 0 && AllDigits(p) && Value(p) == i + 1;
    ValueOfDec(n);
    assert |d| > 0 && AllDigits(d) && Value(d) == n;
    ParseQrFields(p, d, f);
  }

  lemma ParseLabelQrBracket(rest: string)
    ensures ParseLabel("qr[" + rest) == ParseQrPosition(rest)
  {
    var l := "qr[" + rest;
    assert l[..3] == "qr[" && l[3..] == rest;
    assert !HasPrefix(l, "image ") by { assert l[0] != "image "[0]; }
    assert !HasPrefix(l, "url ") by { assert l[0] != "url "[0]; }
    assert !HasPrefix(l, "secret ") by { assert l[0] != "secret "[0]; }
    assert !HasPrefix(l, "qr ") by { assert l[2] != "qr "[2]; }
  }

  lemma ParseLabelQrSpace(f: string)
    ensures ParseLabel("qr " + f) == Some(QrCode(f, 0, 1))
  {
    var l := "qr " + f;
    assert l[0] == 'q' && l[..3] == "qr " && l[3..] == f;
  }

  lemma QrLabelRoundTrip(f: string, i: nat, n: nat)
    requires i < n
    ensures ParseLabel(Label(QrCode(f, i, n))) == Some(QrCode(f, i, n))
  {
    if n == 1 {
      ParseLabelQrSpace(f);
    } else {
      var rest := Pad0(Dec(i + 1), |Dec(n)|) + "/" + Dec(n) + "] " + f;
      assert Label(QrCode(f, i, n)) == "qr[" + rest;
      ParseLabelQrBracket(rest);
      ParseQrPositionOf(f, i, n);
    }
  }

  /** Labels are unambiguous: every source the pipeline builds is read back
      from its label. */
  lemma LabelRoundTrip(s: Source)
    requires WellFormed(s)
    ensures ParseLabel(Label(s)) == Some(s)
  {
    var l := Label(s);
    match s
    case Image(f) =>
      assert l[..6] == "image ";
    case Url(u) =>
      assert l[0] == 'u' && l[..4] == "url ";
    case Secret(t) =>
      assert l[0] == 's' && l[..7] == "secret ";
    case QrCode(f, i, n) =>
      QrLabelRoundTrip(f, i, n);
  }

  /** Hence two well-formed sources with the same label are the same source. */
  lemma LabelInjective(a: Source, b: Source)
    requires WellFormed(a) && WellFormed(b)
    requires Label(a) == Label(b)
    ensures a == b
  {
    LabelRoundTrip(a);
    LabelRoundTrip(b);
  }

  /** An error line starts with a dash; a success line with a digit. */
  predicate IsErrorLine(line: string) {
    |line| > 0 && line[0] == '-'
  }

  lemma ErrorLineIffErr(o: Output)
    ensures IsErrorLine(Line(o)) <==> o.result.Err?
  {
    if o.result.Ok? {
      var p := Pad0(Dec(o.result.value), 6);
      assert Line(o)[0] == p[0];
      assert IsDigit(p[0]) by {
        PaddedDecimal(o.result.value, 6);
      }
    }
  }

  /** The six-digit code at the head of a success line, if there is one. */
  function ParseCode(line: string): Option<nat> {
    if |line| >= 7 && AllDigits(line[..6]) && line[6] == '\t' then Some(Value(line[..6]))
    else None
  }

  lemma OkLineFields(r: nat, source: Source)
    requires r < 1000000
    ensures ParseCode(Line(Output(source, Ok(r)))) == Some(r)
    ensures Line(Output(source, Ok(r)))[7..] == Label(source)
  {
    var p := Pad0(Dec(r), 6);
    var line := p + "\t" + Label(source);
    assert Line(Output(source, Ok(r))) == line;
    PaddedDecimal(r, 6);
    assert |p| == 6;
    assert line[..6] == p && line[6] == '\t';
    assert line[7..] == Label(source);
  }

  /** A code below 10^6 is written as exactly six digits, a tab and the
      label; an error line carries no code and reads
      `------<tab><label>: <message>`. */
  lemma LineFields(o: Output)
    ensures o.result.Ok? && o.result.value < 1000000 ==>
      ParseCode(Line(o)) == Some(o.result.value) && Line(o)[7..] == Label(o.source)
    ensures o.result.Err? ==>
      ParseCode(Line(o)) == None &&
      Line(o) == "------\t" + Label(o.source) + ": " + o.result.error
  {
    match o.result
    case Ok(r) =>
      if r < 1000000 {
        OkLineFields(r, o.source);
      }
    case Err(e) =>
      assert Line(o)[0] == '-' && !IsDigit(Line(o)[0]);
  }

  /** An error line does not determine its source: neither the label nor
      the message marks where it ends, so a `: ` inside a URL can be read
      as the start of the message. */
  lemma ErrorLineAmbiguous()
    ensures var o1 := Output(Url("a: b"), Err("c"));
      var o2 := Output(Url("a"), Err("b: c"));
      o1.source != o2.source && Line(o1) == Line(o2)
  {
    assert Line(Output(Url("a: b"), Err("c"))) == "------\turl a: b: c";
    assert Line(Output(Url("a"), Err("b: c"))) == "------\turl a: b: c";
  }
}
