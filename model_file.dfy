/** The model file reader of parameter.cpp (`parameter::parse_model_file`): a header of
  entries such as `kernel_type rbf`, `total_sv 3`, `label 1 -1` and `nr_sv 2 1`, matched in
  lower case, up to the line `SV`; then one support vector per line in the LIBSVM format,
  its label being its weight alpha. Only two classes with the labels 1 and -1 are accepted. */
module ModelFile {
  import opened Wrappers
  import opened StringUtility
  import LibsvmParsing
  import opened LibsvmFile
  import MH = ModelHeader

  // ---------------------------------------------------------------- the state the header sets

  /** The parameter's fields the header writes (kernel, gamma, degree, coef0, rho) and the
    helper variables of the loop: the total number of support vectors, the two labels,
    the two counts of `nr_sv` with the total they were checked against, and whether rho
    was given. */
  datatype ModelScan = ModelScan(kernel: MH.KernelType, gamma: real, degree: int, coef0: real, rho: real,
                                 numSv: nat, labels: (int, int), counts: Option<(nat, nat)>, rhoSet: bool)

  /** The loop variables before the first line, with the fields as they were. */
  function StartScan(kernel: MH.KernelType, gamma: real, degree: int, coef0: real, rho: real): ModelScan {
    ModelScan(kernel, gamma, degree, coef0, rho, 0, (0, 0), None, false)
  }

  /** A line is an entry, read into the state, or the line `sv`. */
  datatype LineOutcome = Read(scan: ModelScan) | SvLine

  /** A label stored in an `int`: the conversion of a real truncates toward zero. */
  function Truncate(v: real): (n: int)
    ensures -1.0 < v - n as real < 1.0 && (v >= 0.0 ==> n >= 0) && (v <= 0.0 ==> n <= 0)
  {
    if v >= 0.0 then v.Floor else -((-v).Floor)
  }

  /** The two numbers of a `label` or `nr_sv` value: the text up to the first space, the
    text after it up to the next space or newline, and what follows that, without leading
    spaces. */
  function TwoTokens(value: string): (string, string, string) {
    var sp := LibsvmParsing.FindFirst(value, {' '}, 0);
    var first := value[..if sp.Some? then sp.value else |value|];
    var rest := value[Min(|first| + 1, |value|)..];
    var sp2 := LibsvmParsing.FindFirst(rest, {' ', '\n'}, 0);
    var second := rest[..if sp2.Some? then sp2.value else |rest|];
    (first, second, TrimLeft(rest[Min(|second| + 1, |rest|)..]))
  }

  /** `label a b`: two reals, truncated, each 1 or -1, and nothing after them. */
  function LabelPair(value: string, line: string, parseReal: string -> Option<real>): (r: Result<(int, int), FormatError>)
    ensures r.Success? ==> (r.value.0 == 1 || r.value.0 == -1) && (r.value.1 == 1 || r.value.1 == -1)
  {
    var (first, second, rest) := TwoTokens(value);
    if parseReal(first).None? then Failure(BadReal(first))
    else if parseReal(second).None? then Failure(BadReal(second))
    else
      var a, b := Truncate(parseReal(first).value), Truncate(parseReal(second).value);
      if rest != [] || (a != 1 && a != -1) || (b != 1 && b != -1) then Failure(BadLabels(line))
      else Success((a, b))
  }

  /** `nr_sv a b`: two counts, nothing after them, adding up to `total`. */
  function CountPair(value: string, line: string, total: nat): (r: Result<(nat, nat), FormatError>)
    ensures r.Success? ==> r.value.0 + r.value.1 == total
  {
    var (first, second, rest) := TwoTokens(value);
    var a := ParseIntegral(first, 0, MH.SIZE_MAX, "unsigned long");
    if a.Failure? then Failure(BadInteger(a.error))
    else
      var b := ParseIntegral(second, 0, MH.SIZE_MAX, "unsigned long");
      if b.Failure? then Failure(BadInteger(b.error))
      else if rest != [] then Failure(TooManyNrSv(line))
      else if a.value + b.value != total then Failure(NrSvMismatch(a.value as nat, b.value as nat, total))
      else Success((a.value as nat, b.value as nat))
  }

  /** What the loop does with an entry `key` whose value is `value`; `line` is the line in
    lower case and `raw` as the file has it. */
  function ModelEntry(key: MH.Key, value: string, line: string, raw: string, s: ModelScan,
                      parseReal: string -> Option<real>, parseKernel: string -> Option<MH.KernelType>)
    : Result<LineOutcome, FormatError>
  {
    match key
    case SvmTypeKey =>
      if value != "c_svc" then Failure(BadSvmType(value)) else Success(Read(s))
    case KernelTypeKey =>
      var k := parseKernel(value);
      if k.None? then Failure(BadKernelType(value)) else Success(Read(s.(kernel := k.value)))
    case GammaKey =>
      if parseReal(value).None? then Failure(BadReal(value)) else Success(Read(s.(gamma := parseReal(value).value)))
    case DegreeKey =>
      var d := ParseIntegral(value, MH.INT_MIN, MH.INT_MAX, "int");
      if d.Failure? then Failure(BadInteger(d.error)) else Success(Read(s.(degree := d.value)))
    case Coef0Key =>
      if parseReal(value).None? then Failure(BadReal(value)) else Success(Read(s.(coef0 := parseReal(value).value)))
    case NrClassKey =>
      var n := ParseIntegral(value, 0, MH.SIZE_MAX, "unsigned long");
      if n.Failure? then Failure(BadInteger(n.error))
      else if n.value != 2 then Failure(NotTwoClasses(n.value as nat))
      else Success(Read(s))
    case TotalSvKey =>
      var n := ParseIntegral(value, 0, MH.SIZE_MAX, "unsigned long");
      if n.Failure? then Failure(BadInteger(n.error))
      else if n.value == 0 then Failure(ZeroTotalSv)
      else Success(Read(s.(numSv := n.value as nat)))
    case RhoKey =>
      if parseReal(value).None? then Failure(BadReal(value))
      else Success(Read(s.(rho := parseReal(value).value, rhoSet := true)))
    case LabelKey =>
      var l := LabelPair(value, line, parseReal);
      if l.Failure? then Failure(l.error) else Success(Read(s.(labels := l.value)))
    case NrSvKey =>
      var c := CountPair(value, line, s.numSv);
      if c.Failure? then Failure(c.error) else Success(Read(s.(counts := Some((c.value.0, s.numSv)))))
    case SvKey => Success(SvLine)
    case UnknownKey => Failure(UnrecognizedEntry(raw))
  }

  /** One pass of the header loop: the line in lower case names the entry; its value is
    the text after the first space, without leading spaces. */
  function ModelLineStep(raw: string, s: ModelScan, parseReal: string -> Option<real>,
                         parseKernel: string -> Option<MH.KernelType>): Result<LineOutcome, FormatError>
  {
    var line := LowerString(raw);
    ModelEntry(MH.KeyOf(line), MH.EntryValue(line), line, raw, s, parseReal, parseKernel)
  }

  /** Why the header loop stopped: at the `sv` line, at the end of the lines, or at a line
    it rejects. */
  datatype ScanStop = AtSv(headerLine: nat) | RanOut | Rejected(error: FormatError)

  /** What one pass of the header loop does with a line, given the fields read so far. */
  type ModelLineReader = (string, ModelScan) -> Result<LineOutcome, FormatError>

  /** The pass of the source: `ModelLineStep` with the two conversions. */
  function ModelReader(parseReal: string -> Option<real>, parseKernel: string -> Option<MH.KernelType>): ModelLineReader {
    (raw, s) => ModelLineStep(raw, s, parseReal, parseKernel)
  }

  /** The header loop from line `i` on, passing each line to `read`: the state when it
    stops, and why. */
  function ModelScanWith(lines: seq<string>, i: nat, s: ModelScan, read: ModelLineReader): (r: (ModelScan, ScanStop))
    requires i <= |lines|
    ensures r.1.AtSv? ==> i <= r.1.headerLine < |lines|
    decreases |lines| - i
  {
    if i == |lines| then (s, RanOut)
    else
      var step := read(lines[i], s);
      if step.Failure? then (s, Rejected(step.error))
      else if step.value.SvLine? then (s, AtSv(i))
      else ModelScanWith(lines, i + 1, step.value.scan, read)
  }

  /** The header loop of the source from line `i` on. */
  function ModelScanFrom(lines: seq<string>, i: nat, s: ModelScan, parseReal: string -> Option<real>,
                         parseKernel: string -> Option<MH.KernelType>): (r: (ModelScan, ScanStop))
    requires i <= |lines|
    ensures r.1.AtSv? ==> i <= r.1.headerLine < |lines|
  {
    ModelScanWith(lines, i, s, ModelReader(parseReal, parseKernel))
  }

  /** One pass of the loop of the source, on line `i`. */
  lemma ModelScanStep(lines: seq<string>, i: nat, s: ModelScan, parseReal: string -> Option<real>,
                      parseKernel: string -> Option<MH.KernelType>)
    requires i < |lines|
    ensures var step := ModelLineStep(lines[i], s, parseReal, parseKernel);
      ModelScanFrom(lines, i, s, parseReal, parseKernel)
      == if step.Failure? then (s, Rejected(step.error))
         else if step.value.SvLine? then (s, AtSv(i))
         else ModelScanFrom(lines, i + 1, step.value.scan, parseReal, parseKernel)
  {
    assert ModelReader(parseReal, parseKernel)(lines[i], s) == ModelLineStep(lines[i], s, parseReal, parseKernel);
  }

  /** The header loop, writing the fields as it goes; `read` is the pass over one line. */
  method ScanModelHeader(lines: seq<string>, start: ModelScan, read: ModelLineReader) returns (s: ModelScan, stop: ScanStop)
    ensures (s, stop) == ModelScanWith(lines, 0, start, read)
  {
    s := start;
    var header := 0;
    while header < |lines|
      invariant header <= |lines|
      invariant ModelScanWith(lines, 0, start, read) == ModelScanWith(lines, header, s, read)
    {
      var step := read(lines[header], s);
      if step.Failure? {
        return s, Rejected(step.error);
      }
      if step.value.SvLine? {
        return s, AtSv(header);
      }
      s := step.value.scan;
      header := header + 1;
    }
    return s, RanOut;
  }

  // ---------------------------------------------------------------- after the header

  /** The checks after the loop, in the source's order. */
  function MissingCheck(s: ModelScan, stop: ScanStop): (r: Outcome<FormatError>)
    ensures r.Pass? <==> s.numSv > 0 && s.labels.0 != 0 && s.labels.1 != 0 && s.counts.Some? && s.rhoSet && stop.AtSv?
  {
    if s.numSv == 0 then Fail(MissingTotalSv)
    else if s.labels.0 == 0 || s.labels.1 == 0 then Fail(MissingLabels)
    else if s.counts.None? then Fail(MissingNrSv)
    else if !s.rhoSet then Fail(MissingRho)
    else if !stop.AtSv? then Fail(MissingSv)
    else Pass
  }

  /** The label of every support vector: the first label for the first `first` of them,
    the second label for the rest. */
  function Fill(labels: (int, int), first: nat, total: nat): (values: seq<real>)
    ensures |values| == total
  {
    seq(total, i requires 0 <= i < total => if i < first then labels.0 as real else labels.1 as real)
  }

  /** `std::fill` of the two ranges of the labels. */
  method FillValues(labels: (int, int), first: nat, total: nat) returns (values: array<real>)
    requires first <= total
    ensures fresh(values) && values[..] == Fill(labels, first, total)
  {
    values := new real[total];
    for i := 0 to first
      invariant forall k :: 0 <= k < i ==> values[k] == labels.0 as real
    {
      values[i] := labels.0 as real;
    }
    for i := first to total
      invariant forall k :: 0 <= k < first ==> values[k] == labels.0 as real
      invariant forall k :: first <= k < i ==> values[k] == labels.1 as real
    {
      values[i] := labels.1 as real;
    }
  }

  /** What a model file yields besides the fields: the label of every support vector,
    the support vectors and their weights. */
  datatype ModelRead = ModelRead(values: seq<real>, data: seq<seq<real>>, alphas: seq<real>)

  /** The support vector lines: the `numSv` lines after `sv`. */
  function SupportVectorLines(lines: seq<string>, headerLine: nat, numSv: nat): seq<string>
    requires headerLine < |lines| && headerLine + 1 + numSv <= |lines|
  {
    lines[headerLine + 1..headerLine + 1 + numSv]
  }

  /** `parse_model_file` after the header loop: the checks, the labels, then the support
    vectors read as a LIBSVM file into `numSv` rows and weights. */
  function ReadModelData(lines: seq<string>, s: ModelScan, stop: ScanStop,
                         parseReal: string -> Option<real>, realMax: real): (r: Result<ModelRead, FormatError>)
    requires stop.AtSv? ==> stop.headerLine < |lines|
    ensures r.Success? ==> |r.value.data| == |r.value.alphas| == s.numSv > 0
  {
    if stop.Rejected? then Failure(stop.error)
    else
      var check := MissingCheck(s, stop);
      if check.Fail? then Failure(check.error)
      else if stop.headerLine + 1 + s.numSv > |lines| then
        Failure(TooFewSupportVectors(|lines| - stop.headerLine - 1, s.numSv))
      else
        var svLines := SupportVectorLines(lines, stop.headerLine, s.numSv);
        var read := ReadFile(svLines, seq(s.numSv, _ => []), LibsvmParsing.Zeros(s.numSv), parseReal, realMax);
        if read.Failure? then Failure(read.error)
        else Success(ModelRead(Fill(s.labels, s.counts.value.0, s.counts.value.1), read.value.0, read.value.1))
  }

  /** `parse_model_file` on the lines of a file, starting from the parameter's fields:
    the fields after the header loop (written even when a later step fails) and what the
    file yields. */
  function ReadModel(lines: seq<string>, start: ModelScan, parseReal: string -> Option<real>,
                     parseKernel: string -> Option<MH.KernelType>, realMax: real): (ModelScan, Result<ModelRead, FormatError>)
  {
    var (s, stop) := ModelScanFrom(lines, 0, start, parseReal, parseKernel);
    (s, ReadModelData(lines, s, stop, parseReal, realMax))
  }

  // ---------------------------------------------------------------- properties

  /** What the loop guarantees of the state it stops with: any labels it read are 1 or -1
    each, a positive total whenever it read one, and counts that add up to the total they
    were checked against. */
  predicate ScanValid(s: ModelScan) {
    && (s.labels == (0, 0) || ((s.labels.0 == 1 || s.labels.0 == -1) && (s.labels.1 == 1 || s.labels.1 == -1)))
    && (s.counts.Some? ==> s.counts.value.0 <= s.counts.value.1)
  }

  /** One line keeps the state valid; it is read only when it is an entry, and it stops
    the loop without an error only when it is `sv`. */
  lemma ModelLineStepValid(raw: string, s: ModelScan, parseReal: string -> Option<real>,
                           parseKernel: string -> Option<MH.KernelType>)
    requires ScanValid(s)
    ensures var step := ModelLineStep(raw, s, parseReal, parseKernel);
      var key := MH.KeyOf(LowerString(raw));
      && (step.Success? && step.value.Read? ==> key.IsEntry() && ScanValid(step.value.scan))
      && (step.Success? && step.value.SvLine? <==> key == MH.SvKey)
  {
    var line := LowerString(raw);
    ModelEntryValid(MH.KeyOf(line), MH.EntryValue(line), line, raw, s, parseReal, parseKernel);
  }

  lemma ModelEntryValid(key: MH.Key, value: string, line: string, raw: string, s: ModelScan,
                        parseReal: string -> Option<real>, parseKernel: string -> Option<MH.KernelType>)
    requires ScanValid(s)
    ensures var step := ModelEntry(key, value, line, raw, s, parseReal, parseKernel);
      && (step.Success? && step.value.Read? ==> key.IsEntry() && ScanValid(step.value.scan))
      && (step.Success? && step.value.SvLine? <==> key == MH.SvKey)
  {
    match key {
      case SvmTypeKey =>
      case KernelTypeKey =>
      case GammaKey =>
      case DegreeKey =>
      case Coef0Key =>
      case NrClassKey =>
      case TotalSvKey =>
      case RhoKey =>
      case LabelKey =>
      case NrSvKey =>
      case SvKey =>
      case UnknownKey =>
    }
  }

  /** The loop stops at the first `sv` line, after entries only; it stops at a line only
    when that line is rejected or is `sv`; and the state stays valid. */
  lemma {:induction false} ModelScanStops(lines: seq<string>, i: nat, s: ModelScan, parseReal: string -> Option<real>,
                                          parseKernel: string -> Option<MH.KernelType>)
    requires i <= |lines| && ScanValid(s)
    ensures var (e, stop) := ModelScanFrom(lines, i, s, parseReal, parseKernel);
      && ScanValid(e)
      && (stop.AtSv? ==>
            && MH.KeyOf(LowerString(lines[stop.headerLine])) == MH.SvKey
            && forall j :: i <= j < stop.headerLine ==> MH.KeyOf(LowerString(lines[j])).IsEntry())
      && (stop.RanOut? ==> forall j :: i <= j < |lines| ==> MH.KeyOf(LowerString(lines[j])).IsEntry())
    decreases |lines| - i
  {
    if i < |lines| {
      ModelScanStep(lines, i, s, parseReal, parseKernel);
      var step := ModelLineStep(lines[i], s, parseReal, parseKernel);
      var key := MH.KeyOf(LowerString(lines[i]));
      ModelLineStepValid(lines[i], s, parseReal, parseKernel);
      if step.Success? && step.value.Read? {
        var next := step.value.scan;
        ModelScanStops(lines, i + 1, next, parseReal, parseKernel);
        var (e, stop) := ModelScanFrom(lines, i + 1, next, parseReal, parseKernel);
        if stop.AtSv? {
          forall j | i <= j < stop.headerLine ensures MH.KeyOf(LowerString(lines[j])).IsEntry() {
            if j == i { assert key.IsEntry(); }
          }
        }
        if stop.RanOut? {
          forall j | i <= j < |lines| ensures MH.KeyOf(LowerString(lines[j])).IsEntry() {
            if j == i { assert key.IsEntry(); }
          }
        }
      }
    }
  }

  /** A model file that reads has: a positive number of support vectors, each with a row
    of the same positive width and a weight; the labels 1 and -1 (each the first or the
    second); the first count's labels first and the second's after them; and an `sv` line
    after entries only. */
  lemma ModelFileRead(lines: seq<string>, start: ModelScan, parseReal: string -> Option<real>,
                      parseKernel: string -> Option<MH.KernelType>, realMax: real)
    requires ScanValid(start)
    requires ReadModel(lines, start, parseReal, parseKernel, realMax).1.Success?
    ensures var (s, r) := ReadModel(lines, start, parseReal, parseKernel, realMax);
      var m := r.value;
      && s.rhoSet
      && (s.labels.0 == 1 || s.labels.0 == -1) && (s.labels.1 == 1 || s.labels.1 == -1)
      && |m.data| == |m.alphas| == s.numSv > 0
      && (forall i :: 0 <= i < |m.data| ==> |m.data[i]| == |m.data[0]| > 0)
      && s.counts.Some? && |m.values| == s.counts.value.1
      && (forall i :: 0 <= i < |m.values| ==>
            m.values[i] == if i < s.counts.value.0 then s.labels.0 as real else s.labels.1 as real)
      && (forall i :: 0 <= i < |m.values| ==> m.values[i] == 1.0 || m.values[i] == -1.0)
  {
    ModelScanStops(lines, 0, start, parseReal, parseKernel);
    var (s, stop) := ModelScanFrom(lines, 0, start, parseReal, parseKernel);
    var svLines := SupportVectorLines(lines, stop.headerLine, s.numSv);
    ReadFileRows(svLines, seq(s.numSv, _ => []), LibsvmParsing.Zeros(s.numSv), parseReal, realMax);
  }

  /** Every rejection names its cause: the header loop's, then the first failed check in
    the order total, labels, counts, rho, `sv`. */
  lemma ModelFileErrors(lines: seq<string>, start: ModelScan, parseReal: string -> Option<real>,
                        parseKernel: string -> Option<MH.KernelType>, realMax: real)
    ensures var (s, stop) := ModelScanFrom(lines, 0, start, parseReal, parseKernel);
      var r := ReadModel(lines, start, parseReal, parseKernel, realMax).1;
      && (stop.Rejected? ==> r == Failure(stop.error))
      && (!stop.Rejected? && s.numSv == 0 ==> r == Failure(MissingTotalSv))
      && (!stop.Rejected? && s.numSv > 0 && s.labels.0 * s.labels.1 == 0 ==> r == Failure(MissingLabels))
      && (!stop.Rejected? && s.numSv > 0 && s.labels.0 * s.labels.1 != 0 && s.counts.None? ==> r == Failure(MissingNrSv))
      && (!stop.Rejected? && s.numSv > 0 && s.labels.0 * s.labels.1 != 0 && s.counts.Some? && !s.rhoSet ==> r == Failure(MissingRho))
      && (stop.RanOut? && s.numSv > 0 && s.labels.0 * s.labels.1 != 0 && s.counts.Some? && s.rhoSet ==> r == Failure(MissingSv))
  {
    var (s, stop) := ModelScanFrom(lines, 0, start, parseReal, parseKernel);
    ReadModelDataErrors(lines, s, stop, parseReal, realMax);
  }

  /** The checks after the header loop, in the source's order. */
  lemma ReadModelDataErrors(lines: seq<string>, s: ModelScan, stop: ScanStop, parseReal: string -> Option<real>,
                            realMax: real)
    requires stop.AtSv? ==> stop.headerLine < |lines|
    ensures var r := ReadModelData(lines, s, stop, parseReal, realMax);
      && (stop.Rejected? ==> r == Failure(stop.error))
      && (!stop.Rejected? && s.numSv == 0 ==> r == Failure(MissingTotalSv))
      && (!stop.Rejected? && s.numSv > 0 && s.labels.0 * s.labels.1 == 0 ==> r == Failure(MissingLabels))
      && (!stop.Rejected? && s.numSv > 0 && s.labels.0 * s.labels.1 != 0 && s.counts.None? ==> r == Failure(MissingNrSv))
      && (!stop.Rejected? && s.numSv > 0 && s.labels.0 * s.labels.1 != 0 && s.counts.Some? && !s.rhoSet ==> r == Failure(MissingRho))
      && (stop.RanOut? && s.numSv > 0 && s.labels.0 * s.labels.1 != 0 && s.counts.Some? && s.rhoSet ==> r == Failure(MissingSv))
  {
    if s.labels.0 * s.labels.1 == 0 {
      assert s.labels.0 == 0 || s.labels.1 == 0;
    }
  }

  // ---------------------------------------------------------------- two numbers

  /** Two numbers separated by one space come back as they were, with nothing after them. */
  lemma TwoTokensOf(a: string, b: string)
    requires ' ' !in a && ' ' !in b && '\n' !in b
    ensures TwoTokens(a + " " + b) == (a, b, "")
  {
    var value := a + " " + b;
    LibsvmParsing.FindFirstSkips(value, {' '}, 0);
    assert value[|a|] == ' ';
    assert LibsvmParsing.FindFirst(value, {' '}, 0) == Some(|a|) by {
      FindFirstAt(value, {' '}, 0, |a|);
    }
    assert value[..|a|] == a;
    assert value[|a| + 1..] == b;
    LibsvmParsing.FindFirstSkips(b, {' ', '\n'}, 0);
    assert LibsvmParsing.FindFirst(b, {' ', '\n'}, 0) == None by {
      FindFirstNone(b, {' ', '\n'}, 0);
    }
    assert b[..|b|] == b;
    assert b[|b|..] == [];
    TrimLeftEmpty();
  }

  lemma {:induction false} FindFirstAt(s: string, cs: set<char>, from: nat, k: nat)
    requires from <= k < |s| && s[k] in cs && forall j :: from <= j < k ==> s[j] !in cs
    ensures LibsvmParsing.FindFirst(s, cs, from) == Some(k)
    decreases k - from
  {
    if from < k {
      FindFirstAt(s, cs, from + 1, k);
    }
  }

  lemma {:induction false} FindFirstNone(s: string, cs: set<char>, from: nat)
    requires from <= |s| && forall j :: from <= j < |s| ==> s[j] !in cs
    ensures LibsvmParsing.FindFirst(s, cs, from) == None
    decreases |s| - from
  {
    if from < |s| {
      FindFirstNone(s, cs, from + 1);
    }
  }

  lemma TrimLeftEmpty()
    ensures TrimLeft([]) == []
  {
  }

  /** The label entry `1 -1` reads as the labels 1 and -1. */
  lemma LabelPairOf(value: string, line: string, parseReal: string -> Option<real>)
    requires value == "1 -1"
    requires parseReal("1") == Some(1.0) && parseReal("-1") == Some(-1.0)
    ensures LabelPair(value, line, parseReal) == Success((1, -1))
  {
    assert value == "1" + " " + "-1";
    LabelPairTokens("1", "-1", line, parseReal);
  }

  /** Two tokens without spaces that read as reals truncating to 1 or -1 are a label pair. */
  lemma LabelPairTokens(a: string, b: string, line: string, parseReal: string -> Option<real>)
    requires ' ' !in a && ' ' !in b && '\n' !in b
    requires parseReal(a).Some? && parseReal(b).Some?
    requires Truncate(parseReal(a).value) in {1, -1} && Truncate(parseReal(b).value) in {1, -1}
    ensures LabelPair(a + " " + b, line, parseReal) == Success((Truncate(parseReal(a).value), Truncate(parseReal(b).value)))
  {
    TwoTokensOf(a, b);
  }

  // ---------------------------------------------------------------- findings

  /** The `nr_sv` entry as written: the first count is an unsigned integer, but the second
    is converted as a real, and the check adds the two as reals. */
  function CountPairAsWritten(value: string, line: string, total: nat, parseReal: string -> Option<real>)
    : Result<(nat, real), FormatError>
  {
    var (first, second, rest) := TwoTokens(value);
    var a := ParseIntegral(first, 0, MH.SIZE_MAX, "unsigned long");
    if a.Failure? then Failure(BadInteger(a.error))
    else if parseReal(second).None? then Failure(BadReal(second))
    else if rest != [] then Failure(TooManyNrSv(line))
    else if a.value as real + parseReal(second).value != total as real then
      Failure(NrSvMismatch(a.value as nat, 0, total))
    else Success((a.value as nat, parseReal(second).value))
  }

  /** As written, the counts `5 -3` pass the check for a total of 2, and the first fill then
    writes 5 labels into 2 places: a first count that reads as 5 and a second that reads as
    -3, separated by one space, are accepted. */
  lemma NegativeCountAsWritten(a: string, b: string, line: string, parseReal: string -> Option<real>)
    requires ' ' !in a && ' ' !in b && '\n' !in b
    requires ParseIntegral(a, 0, MH.SIZE_MAX, "unsigned long") == Success(5)
    requires parseReal(b) == Some(-3.0)
    ensures CountPairAsWritten(a + " " + b, line, 2, parseReal) == Success((5, -3.0))
  {
    TwoTokensOf(a, b);
  }

  /** In the model, a second count with a minus sign does not convert to an unsigned
    count, so the `5 -3` of `NegativeCountAsWritten` is rejected. */
  lemma NegativeCountRejected(a: string, b: string, line: string)
    requires ' ' !in a && ' ' !in b && '\n' !in b
    requires ParseIntegral(a, 0, MH.SIZE_MAX, "unsigned long") == Success(5)
    requires |TrimLeft(b)| > 0 && TrimLeft(b)[0] == '-'
    ensures CountPair(a + " " + b, line, 2) == Failure(BadInteger(CannotConvert(TrimLeft(b), "unsigned long")))
  {
    TwoTokensOf(a, b);
    ConvertUnsignedRejectsMinus(b, MH.SIZE_MAX, "unsigned long");
  }

  /** The `nr_sv` entry as written: after the check the labels are filled at once, with the
    labels the loop has read so far, and the pointer to them is set. */
  function NrSvEntryAsWritten(value: string, line: string, s: ModelScan): Result<(ModelScan, seq<real>), FormatError> {
    var c := CountPair(value, line, s.numSv);
    if c.Failure? then Failure(c.error)
    else Success((s.(counts := Some((c.value.0, s.numSv))), Fill(s.labels, c.value.0, s.numSv)))
  }

  /** As written, an `nr_sv` line read before any `label` line fills every label with 0,
    which is neither 1 nor -1; the later `label` line passes the check after the loop and
    leaves those zeros in place. */
  lemma NrSvBeforeLabelAsWritten(value: string, line: string, s: ModelScan)
    requires s.labels == (0, 0) && s.numSv > 0
    requires NrSvEntryAsWritten(value, line, s).Success?
    ensures var values := NrSvEntryAsWritten(value, line, s).value.1;
      |values| == s.numSv && forall i :: 0 <= i < |values| ==> values[i] == 0.0
  {
    var c := CountPair(value, line, s.numSv).value;
    assert NrSvEntryAsWritten(value, line, s).value.1 == Fill(s.labels, c.0, s.numSv);
    FillZeros(c.0, s.numSv);
  }

  lemma FillZeros(first: nat, total: nat)
    ensures forall i :: 0 <= i < total ==> Fill((0, 0), first, total)[i] == 0.0
  {
  }

  /** The labels pointer once the header loop has stopped: null until an `nr_sv` line is
    read, then the fill of its counts with the labels the loop has read. */
  function ValuesAfterScan(s: ModelScan): Option<seq<real>> {
    if s.counts.None? then None else Some(Fill(s.labels, s.counts.value.0, s.counts.value.1))
  }

  /** When the whole file is read, the labels pointer holds the labels it yields. */
  lemma ReadModelValues(lines: seq<string>, start: ModelScan, parseReal: string -> Option<real>,
                        parseKernel: string -> Option<MH.KernelType>, realMax: real)
    requires ReadModel(lines, start, parseReal, parseKernel, realMax).1.Success?
    ensures var (s, r) := ReadModel(lines, start, parseReal, parseKernel, realMax);
      ValuesAfterScan(s) == Some(r.value.values)
  {
  }

  /** The model fills after the loop, with the labels the file gives wherever the `label`
    line stands: every value is 1 or -1. */
  lemma FillAfterLoop(labels: (int, int), first: nat, total: nat)
    requires (labels.0 == 1 || labels.0 == -1) && (labels.1 == 1 || labels.1 == -1)
    ensures forall i :: 0 <= i < total ==> Fill(labels, first, total)[i] == 1.0 || Fill(labels, first, total)[i] == -1.0
  {
  }
}
