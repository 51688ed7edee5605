/** Reading the header of a LIBSVM model file (`parse_libsvm_model_header` in
  libsvm_model_parsing.hpp). Each header line is an entry such as `svm_type c_svc`,
  `nr_class 3`, `label cat dog mouse` or `nr_sv 4 2 2`, up to the line `SV`; the entries
  are then checked for consistency and the label of every support vector is spelled out. */
module ModelHeader {
  import opened Wrappers
  import opened StringUtility
  import LibsvmParsing
  import OneVsOne

  /** `std::size_t` and `unsigned long long`, both 64 bits wide. */
  const SIZE_MAX: int := 0xFFFF_FFFF_FFFF_FFFF
  const INT_MIN: int := -0x8000_0000
  const INT_MAX: int := 0x7FFF_FFFF

  datatype KernelType = Linear | Polynomial | Rbf

  /** The SVM parameters a header sets; `None` is a parameter left at its default. */
  datatype Parameters = Parameters(kernel: KernelType, gamma: Option<real>, degree: Option<int>, coef0: Option<real>)

  datatype HeaderField = SvmType | KernelTypeField | NrClass | TotalSv | Rho | Label | NrSv
  datatype KernelParameter = Gamma | Degree | Coef0

  /** The exceptions `parse_libsvm_model_header` throws, in the model's terms. */
  datatype HeaderError =
    | BadSvmType(value: string)                               // svm_type other than c_svc
    | BadKernelType(value: string)                            // kernel_type that does not convert
    | Conversion(error: ConversionError)                      // a number that does not convert
    | ZeroTotalSv                                             // total_sv is 0
    | NoRho                                                   // rho without a value
    | TooFewLabels(found: nat)                                // label with fewer than two values
    | DuplicateLabels(provided: nat, unique: nat)             // label with a repeated value
    | TooFewNrSv(found: nat)                                  // nr_sv with fewer than two values
    | UnrecognizedEntry(entry: string)                        // none of the entries, and not SV
    | Missing(field: HeaderField)                             // a required entry is absent
    | UnusedParameter(parameter: KernelParameter, kernel: KernelType)  // given but unused by the kernel
    | LabelCountMismatch(nrClass: nat, labels: nat)           // nr_class differs from the label count
    | NrSvCountMismatch(nrClass: nat, nrSv: nat)              // nr_class differs from the nr_sv count
    | BinaryRho(found: nat)                                   // two classes need exactly one rho
    | TotalMismatch(total: nat, sum: nat)                     // total_sv differs from the sum of nr_sv
    | NoSupportVectorLines                                    // nothing follows SV, or SV is missing

  /** What the header parser returns: the parameters, rho, the label of every support
    vector, the distinct labels, the support vectors per class and the number of lines up
    to and including `SV`. */
  datatype Header<L> = Header(params: Parameters, rho: seq<real>, dataLabels: seq<L>, labels: seq<L>,
                              nrSv: seq<nat>, skipped: nat)

  // ---------------------------------------------------------------- values of entries

  /** The text after the first space of an entry, without leading spaces; the whole entry
    when it has no space (`find_first_of(' ') + 1` wraps to 0). */
  function EntryValue(line: string): (value: string)
    ensures |value| <= |line| && line[|line| - |value|..] == value
  {
    var sp := Find(line, " ", 0);
    TrimLeft(line[if sp.Some? then sp.value + 1 else 0..])
  }

  /** `convert_to<real_type>` as a conversion that may fail. */
  function RealOf(parseReal: string -> Option<real>): string -> Result<real, HeaderError> {
    t => if parseReal(t).Some? then Success(parseReal(t).value)
         else Failure(Conversion(CannotConvert(TrimLeft(t), "double")))
  }

  /** `convert_to<size_type>`. */
  function SizeOf(t: string): (r: Result<nat, HeaderError>)
    ensures r.Success? ==> r.value <= SIZE_MAX
  {
    var v := ParseIntegral(t, 0, SIZE_MAX, "unsigned long");
    if v.Failure? then Failure(Conversion(v.error)) else Success(v.value as nat)
  }

  /** `split_as<T>(value, ' ')`: every piece converted; the first that does not convert
    decides the error. */
  function SplitAs<T>(value: string, convert: string -> Result<T, HeaderError>): (r: Result<seq<T>, HeaderError>)
    ensures r.Success? ==> |r.value| == |Split(value, ' ')|
  {
    var pieces := Split(value, ' ');
    LibsvmParsing.Collect(seq(|pieces|, i requires 0 <= i < |pieces| => convert(pieces[i])))
  }

  /** `split_as<label_type>`: `convert` is `convert_to<label_type>`, whose error the
    header passes on. */
  function LabelOf<L>(convert: string -> Result<L, ConversionError>): string -> Result<L, HeaderError> {
    t => if convert(t).Success? then Success(convert(t).value) else Failure(Conversion(convert(t).error))
  }

  lemma LabelOfApplied<L>(convert: string -> Result<L, ConversionError>, t: string)
    ensures LabelOf(convert)(t) == if convert(t).Success? then Success(convert(t).value)
                                    else Failure(Conversion(convert(t).error))
  {
  }

  /** The distinct labels, as the `std::set<label_type>` the source builds. */
  function LabelSet<L(==)>(labels: seq<L>): set<L> {
    set l | l in labels
  }

  predicate Distinct<L(==)>(labels: seq<L>) {
    forall i, j :: 0 <= i < j < |labels| ==> labels[i] != labels[j]
  }

  lemma {:induction false} LabelSetBound<L>(labels: seq<L>)
    ensures |LabelSet(labels)| <= |labels|
  {
    if labels != [] {
      var init := labels[..|labels| - 1];
      LabelSetBound(init);
      assert LabelSet(labels) == LabelSet(init) + {labels[|labels| - 1]};
    }
  }

  /** The set of labels is as large as the list exactly when no label repeats. */
  lemma {:induction false} UniqueIffDistinct<L>(labels: seq<L>)
    ensures |LabelSet(labels)| == |labels| <==> Distinct(labels)
  {
    if labels != [] {
      var init := labels[..|labels| - 1];
      var last := labels[|labels| - 1];
      UniqueIffDistinct(init);
      LabelSetBound(init);
      assert LabelSet(labels) == LabelSet(init) + {last};
      if last in init {
        var k :| 0 <= k < |init| && init[k] == last;
        assert labels[k] == labels[|labels| - 1];
      } else {
        assert Distinct(labels) == Distinct(init);
      }
    }
  }

  // ---------------------------------------------------------------- one header line

  /** The entries read so far; `None` (or `false`) where the entry was not read. */
  datatype Scan<L> = Scan(svmType: bool, kernel: Option<KernelType>, gamma: Option<real>, degree: Option<int>,
                       coef0: Option<real>, nrClass: Option<nat>, totalSv: Option<nat>, rho: Option<seq<real>>,
                       labels: Option<seq<L>>, nrSv: Option<seq<nat>>)

  function NoEntries<L>(): Scan<L> {
    Scan(false, None, None, None, None, None, None, None, None, None)
  }

  /** After a line the loop goes on with the entries read, or stops at `SV`. */
  datatype Next<L> = Continue(scan: Scan<L>) | Stop

  /** The line as the entries are matched against it: trimmed and in lower case. */
  function Entry(raw: string): string {
    LowerString(Trim(raw))
  }

  /** The entries of a header in the order the source tests them, then `SV`. */
  datatype Key = SvmTypeKey | KernelTypeKey | GammaKey | DegreeKey | Coef0Key | NrClassKey | TotalSvKey
               | RhoKey | LabelKey | NrSvKey | SvKey | UnknownKey
  {
    predicate IsEntry() {
      this != SvKey && this != UnknownKey
    }
  }

  /** The entry a line names: the first entry name the line starts with, in the source's
    order; then the line `sv` itself. */
  function KeyOf(line: string): (k: Key)
    ensures k == SvKey <==> line == "sv"
  {
    if StartsWith(line, "svm_type") then SvmTypeKey
    else if StartsWith(line, "kernel_type") then KernelTypeKey
    else if StartsWith(line, "gamma") then GammaKey
    else if StartsWith(line, "degree") then DegreeKey
    else if StartsWith(line, "coef0") then Coef0Key
    else if StartsWith(line, "nr_class") then NrClassKey
    else if StartsWith(line, "total_sv") then TotalSvKey
    else if StartsWith(line, "rho") then RhoKey
    else if StartsWith(line, "label") then LabelKey
    else if StartsWith(line, "nr_sv") then NrSvKey
    else if line == "sv" then SvKey
    else UnknownKey
  }

  /** One pass of the header loop on the line `raw`. Only the labels are taken from the
    line in its original case. */
  function HeaderStep<L(==)>(raw: string, s: Scan<L>, parseReal: string -> Option<real>,
                      parseKernel: string -> Option<KernelType>,
                     convertLabel: string -> Result<L, ConversionError>): Result<Next<L>, HeaderError>
  {
    var line := Entry(raw);
    EntryStep(KeyOf(line), EntryValue(line), EntryValue(Trim(raw)), raw, s, parseReal, parseKernel, convertLabel)
  }

  /** What the loop does with an entry: `value` is its lower-case value, `labelText` the
    value in its original case. */
  function EntryStep<L(==)>(key: Key, value: string, labelText: string, raw: string, s: Scan<L>,
                     parseReal: string -> Option<real>, parseKernel: string -> Option<KernelType>,
                     convertLabel: string -> Result<L, ConversionError>)
    : Result<Next<L>, HeaderError>
  {
    match key
    case SvmTypeKey =>
      if value != "c_svc" then Failure(BadSvmType(value)) else Success(Continue(s.(svmType := true)))
    case KernelTypeKey =>
      var k := parseKernel(value);
      if k.None? then Failure(BadKernelType(value)) else Success(Continue(s.(kernel := k)))
    case GammaKey =>
      var g := RealOf(parseReal)(value);
      if g.Failure? then Failure(g.error) else Success(Continue(s.(gamma := Some(g.value))))
    case DegreeKey =>
      var d := ParseIntegral(value, INT_MIN, INT_MAX, "int");
      if d.Failure? then Failure(Conversion(d.error)) else Success(Continue(s.(degree := Some(d.value))))
    case Coef0Key =>
      var c := RealOf(parseReal)(value);
      if c.Failure? then Failure(c.error) else Success(Continue(s.(coef0 := Some(c.value))))
    case NrClassKey =>
      var n := ParseIntegral(value, 0, SIZE_MAX, "unsigned long long");
      if n.Failure? then Failure(Conversion(n.error)) else Success(Continue(s.(nrClass := Some(n.value as nat))))
    case TotalSvKey =>
      var n := SizeOf(value);
      if n.Failure? then Failure(n.error)
      else if n.value == 0 then Failure(ZeroTotalSv)
      else Success(Continue(s.(totalSv := Some(n.value))))
    case RhoKey =>
      var r := SplitAs(value, RealOf(parseReal));
      if r.Failure? then Failure(r.error)
      else if r.value == [] then Failure(NoRho)
      else Success(Continue(s.(rho := Some(r.value))))
    case LabelKey =>
      var labels := SplitAs(labelText, LabelOf(convertLabel));
      if labels.Failure? then Failure(labels.error)
      else if |labels.value| < 2 then Failure(TooFewLabels(|labels.value|))
      else if |labels.value| != |LabelSet(labels.value)| then
        Failure(DuplicateLabels(|labels.value|, |LabelSet(labels.value)|))
      else Success(Continue(s.(labels := Some(labels.value))))
    case NrSvKey =>
      var n := SplitAs(value, SizeOf);
      if n.Failure? then Failure(n.error)
      else if |n.value| < 2 then Failure(TooFewNrSv(|n.value|))
      else Success(Continue(s.(nrSv := Some(n.value))))
    case SvKey => Success(Stop)
    case UnknownKey => Failure(UnrecognizedEntry(raw))
  }

  /** What the line checks guarantee of the entries read: a positive total, at least one
    rho, at least two distinct labels and at least two counts. */
  predicate ScanChecked<L(==)>(s: Scan<L>) {
    && (s.totalSv.Some? ==> s.totalSv.value > 0)
    && (s.rho.Some? ==> |s.rho.value| >= 1)
    && (s.labels.Some? ==> |s.labels.value| >= 2 && Distinct(s.labels.value))
    && (s.nrSv.Some? ==> |s.nrSv.value| >= 2)
  }

  /** A line is recognised or rejected: the loop goes on only after an entry, stops only at
    `SV`, rejects every other line, and every entry it accepts keeps the entries checked. */
  lemma EntryStepChecks<L>(key: Key, value: string, labelText: string, raw: string, s: Scan<L>,
                        parseReal: string -> Option<real>, parseKernel: string -> Option<KernelType>,
                     convertLabel: string -> Result<L, ConversionError>)
    requires ScanChecked(s)
    ensures var r := EntryStep(key, value, labelText, raw, s, parseReal, parseKernel, convertLabel);
      && (r.Success? && r.value.Continue? ==> key.IsEntry() && ScanChecked(r.value.scan))
      && (r.Success? && r.value.Stop? <==> key == SvKey)
      && (key == UnknownKey ==> r == Failure(UnrecognizedEntry(raw)))
  {
    match key {
      case SvmTypeKey =>
      case KernelTypeKey =>
      case GammaKey =>
      case DegreeKey =>
      case Coef0Key =>
      case NrClassKey =>
      case TotalSvKey =>
      case RhoKey =>
      case LabelKey =>
        LabelEntry(value, labelText, raw, s, parseReal, parseKernel, convertLabel);
      case NrSvKey =>
      case SvKey =>
      case UnknownKey =>
    }
  }

  /** `split_as` succeeds iff every piece converts, and then holds each piece's value in
    its place. */
  lemma SplitAsPieces<T>(value: string, convert: string -> Result<T, HeaderError>)
    ensures var pieces := Split(value, ' ');
      && (SplitAs(value, convert).Success? <==> forall i :: 0 <= i < |pieces| ==> convert(pieces[i]).Success?)
      && (SplitAs(value, convert).Success? ==>
            forall i :: 0 <= i < |pieces| ==> convert(pieces[i]) == Success(SplitAs(value, convert).value[i]))
  {
    var pieces := Split(value, ' ');
    var rs := seq(|pieces|, i requires 0 <= i < |pieces| => convert(pieces[i]));
    assert SplitAs(value, convert) == LibsvmParsing.Collect(rs);
    assert forall i :: 0 <= i < |pieces| ==> rs[i] == convert(pieces[i]);
    LibsvmParsing.CollectSucceeds(rs);
  }

  /** The `label` entry: the labels are the converted pieces of the text, and the entry is
    accepted iff every piece converts and the converted values are at least two and
    pairwise distinct. Labels that convert to the same value, such as "1" and "01" for an
    integral label type, are duplicates. */
  lemma LabelEntry<L>(value: string, labelText: string, raw: string, s: Scan<L>,
                      parseReal: string -> Option<real>, parseKernel: string -> Option<KernelType>,
                      convertLabel: string -> Result<L, ConversionError>)
    ensures var r := EntryStep(LabelKey, value, labelText, raw, s, parseReal, parseKernel, convertLabel);
      var v := SplitAs(labelText, LabelOf(convertLabel));
      && (r.Success? <==> v.Success? && |v.value| >= 2 && Distinct(v.value))
      && (r.Success? ==> r.value == Continue(s.(labels := Some(v.value))))
      && (v.Failure? ==> r == Failure(v.error))
      && (v.Success? && |v.value| >= 2 && !Distinct(v.value) ==>
            r == Failure(DuplicateLabels(|v.value|, |LabelSet(v.value)|)) && |LabelSet(v.value)| < |v.value|)
  {
    var v := SplitAs(labelText, LabelOf(convertLabel));
    if v.Success? {
      UniqueIffDistinct(v.value);
      LabelSetBound(v.value);
    }
  }

  /** `convert_to<int>`: the conversion of an integral label type. */
  function IntLabel(t: string): (r: Result<int, ConversionError>)
    ensures r.Success? ==> INT_MIN <= r.value <= INT_MAX
  {
    ParseIntegral(t, INT_MIN, INT_MAX, "int")
  }

  /** The label type `std::string`: each piece is a label as it stands. */
  function TextLabel(t: string): (r: Result<string, ConversionError>)
    ensures r == Success(t)
  {
    Success(t)
  }

  /** Two words separated by one space are split into those two words. */
  lemma SplitTwoWords(a: string, b: string)
    requires a != [] && b != [] && ' ' !in a && ' ' !in b
    ensures Split(a + " " + b, ' ') == [a, b]
  {
    var str := a + " " + b;
    forall k: nat | k < |a| ensures !OccursAt(str, [' '], k) {
      OccursAtChar(str, ' ', k);
      assert str[k] == a[k];
    }
    OccursAtChar(str, ' ', |a|);
    assert Find(str, [' '], 0) == Some(|a|);
    forall k: nat | |a| + 1 <= k ensures !OccursAt(str, [' '], k) {
      OccursAtChar(str, ' ', k);
      if k < |str| {
        assert str[k] == b[k - |a| - 1];
      }
    }
    assert Find(str, [' '], |a| + 1) == None;
    assert str[0..|a|] == a && str[|a| + 1..] == b;
    assert SplitFrom(str, ' ', |a| + 1) == [b];
  }

  /** With an integral label type "1" and "01" convert to the same label. */
  lemma IntLabelsOneAndOh1()
    ensures IntLabel("1") == Success(1) && IntLabel("01") == Success(1)
  {
    TrimLeftAt("1", 0);
    TrimLeftAt("01", 0);
    assert "1"[0..] == "1" && "01"[0..] == "01";
    FromCharsDigits("1", "1", "", 0, INT_MIN, INT_MAX, "int");
    FromCharsDigits("01", "01", "", 0, INT_MIN, INT_MAX, "int");
  }

  /** `split_as` of two words that both convert. */
  lemma SplitAsTwo<T>(a: string, b: string, convert: string -> Result<T, HeaderError>, x: T, y: T)
    requires a != [] && b != [] && ' ' !in a && ' ' !in b
    requires convert(a) == Success(x) && convert(b) == Success(y)
    ensures SplitAs(a + " " + b, convert) == Success([x, y])
  {
    var pieces := Split(a + " " + b, ' ');
    SplitTwoWords(a, b);
    SplitAsPieces(a + " " + b, convert);
    assert convert(pieces[0]).Success? && convert(pieces[1]).Success?;
    var v := SplitAs(a + " " + b, convert).value;
    assert convert(pieces[0]) == Success(v[0]) && convert(pieces[1]) == Success(v[1]);
    assert v == [x, y];
  }

  /** `label a b` where both words convert to the same value is a duplicate. */
  lemma SameLabelTwice<L>(a: string, b: string, x: L, value: string, raw: string, s: Scan<L>,
                          parseReal: string -> Option<real>, parseKernel: string -> Option<KernelType>,
                          convertLabel: string -> Result<L, ConversionError>)
    requires a != [] && b != [] && ' ' !in a && ' ' !in b
    requires convertLabel(a) == Success(x) && convertLabel(b) == Success(x)
    ensures EntryStep(LabelKey, value, a + " " + b, raw, s, parseReal, parseKernel, convertLabel)
            == Failure(DuplicateLabels(2, 1))
  {
    LabelOfApplied(convertLabel, a);
    LabelOfApplied(convertLabel, b);
    SplitAsTwo(a, b, LabelOf(convertLabel), x, x);
    assert LabelSet([x, x]) == {x};
    LabelEntry(value, a + " " + b, raw, s, parseReal, parseKernel, convertLabel);
  }

  /** `label a b` where the first word does not convert fails with that conversion's error. */
  lemma FirstLabelUnconvertible<L>(a: string, b: string, e: ConversionError, value: string, raw: string, s: Scan<L>,
                                   parseReal: string -> Option<real>, parseKernel: string -> Option<KernelType>,
                                   convertLabel: string -> Result<L, ConversionError>)
    requires a != [] && b != [] && ' ' !in a && ' ' !in b
    requires convertLabel(a) == Failure(e)
    ensures EntryStep(LabelKey, value, a + " " + b, raw, s, parseReal, parseKernel, convertLabel)
            == Failure(Conversion(e))
  {
    SplitTwoWords(a, b);
    LabelOfApplied(convertLabel, a);
    var convert := LabelOf(convertLabel);
    var rs := seq(2, i requires 0 <= i < 2 => convert([a, b][i]));
    assert rs[..1] == [rs[0]];
    LibsvmParsing.CollectFailed(rs, 1);
    assert SplitAs(a + " " + b, convert) == LibsvmParsing.Collect(rs);
    LabelEntry(value, a + " " + b, raw, s, parseReal, parseKernel, convertLabel);
  }

  /** `label a b` where the words convert to two different values is accepted. */
  lemma TwoDistinctLabels<L>(a: string, b: string, x: L, y: L, value: string, raw: string, s: Scan<L>,
                             parseReal: string -> Option<real>, parseKernel: string -> Option<KernelType>,
                             convertLabel: string -> Result<L, ConversionError>)
    requires a != [] && b != [] && ' ' !in a && ' ' !in b && x != y
    requires convertLabel(a) == Success(x) && convertLabel(b) == Success(y)
    ensures EntryStep(LabelKey, value, a + " " + b, raw, s, parseReal, parseKernel, convertLabel)
            == Success(Continue(s.(labels := Some([x, y]))))
  {
    LabelOfApplied(convertLabel, a);
    LabelOfApplied(convertLabel, b);
    SplitAsTwo(a, b, LabelOf(convertLabel), x, y);
    assert Distinct([x, y]);
    LabelEntry(value, a + " " + b, raw, s, parseReal, parseKernel, convertLabel);
  }

  /** With an integral label type, `label 1 01` names one label twice: the line's label
    text is `one`, a space and `zeroOne`. */
  lemma IntLabelsDuplicate(one: string, zeroOne: string, value: string, raw: string, s: Scan<int>,
                           parseReal: string -> Option<real>, parseKernel: string -> Option<KernelType>)
    requires one == "1" && zeroOne == "01"
    ensures EntryStep(LabelKey, value, one + " " + zeroOne, raw, s, parseReal, parseKernel, IntLabel)
            == Failure(DuplicateLabels(2, 1))
  {
    assert ' ' !in one && ' ' !in zeroOne by {
      assert one == ['1'] && zeroOne == ['0', '1'];
    }
    IntLabelsOneAndOh1();
    SameLabelTwice(one, zeroOne, 1, value, raw, s, parseReal, parseKernel, IntLabel);
  }

  /** With an integral label type, `label a b` does not convert. */
  lemma IntLabelsUnconvertible(value: string, raw: string, s: Scan<int>,
                               parseReal: string -> Option<real>, parseKernel: string -> Option<KernelType>)
    ensures EntryStep(LabelKey, value, "a b", raw, s, parseReal, parseKernel, IntLabel)
            == Failure(Conversion(CannotConvert("a", "int")))
  {
    TrimLeftAt("a", 0);
    assert "a"[0..] == "a";
    ConvertRejectsNonNumeric("a", INT_MIN, INT_MAX, "int");
    FirstLabelUnconvertible("a", "b", CannotConvert("a", "int"), value, raw, s, parseReal, parseKernel, IntLabel);
    assert "a" + " " + "b" == "a b";
  }

  /** With `std::string` labels, `label 1 01` names two labels. */
  lemma TextLabelsDistinct(value: string, raw: string, t: Scan<string>,
                           parseReal: string -> Option<real>, parseKernel: string -> Option<KernelType>)
    ensures EntryStep(LabelKey, value, "1 01", raw, t, parseReal, parseKernel, TextLabel)
            == Success(Continue(t.(labels := Some(["1", "01"]))))
  {
    TwoDistinctLabels("1", "01", "1", "01", value, raw, t, parseReal, parseKernel, TextLabel);
    assert "1" + " " + "01" == "1 01";
  }

  // ---------------------------------------------------------------- the header loop

  /** Where the loop stopped: the entries read and the index of the `SV` line (or the
    number of lines when there is none). */
  datatype ScanEnd<L> = ScanEnd(scan: Scan<L>, headerLine: nat)

  /** What one pass of the header loop does with a line, given the entries read so far. */
  type LineReader<!L> = (string, Scan<L>) -> Result<Next<L>, HeaderError>

  /** The pass of the source: `HeaderStep` with the two conversions. */
  function Reader<L(==)>(parseReal: string -> Option<real>, parseKernel: string -> Option<KernelType>,
                     convertLabel: string -> Result<L, ConversionError>): LineReader<L> {
    (raw, s) => HeaderStep(raw, s, parseReal, parseKernel, convertLabel)
  }

  /** The header loop from line `i` on, with the entries `s` read so far, passing each line
    to `read`. */
  function ScanWith<L>(lines: seq<string>, i: nat, s: Scan<L>, read: LineReader<L>): (r: Result<ScanEnd<L>, HeaderError>)
    requires i <= |lines|
    ensures r.Success? ==> i <= r.value.headerLine <= |lines|
    decreases |lines| - i
  {
    if i == |lines| then Success(ScanEnd(s, i))
    else
      var step := read(lines[i], s);
      if step.Failure? then Failure(step.error)
      else if step.value.Stop? then Success(ScanEnd(s, i))
      else ScanWith(lines, i + 1, step.value.scan, read)
  }

  /** The header loop of the source from line `i` on. */
  function ScanFrom<L(==)>(lines: seq<string>, i: nat, s: Scan<L>, parseReal: string -> Option<real>,
                    parseKernel: string -> Option<KernelType>,
                     convertLabel: string -> Result<L, ConversionError>): (r: Result<ScanEnd<L>, HeaderError>)
    requires i <= |lines|
    ensures r.Success? ==> i <= r.value.headerLine <= |lines|
  {
    ScanWith(lines, i, s, Reader(parseReal, parseKernel, convertLabel))
  }

  /** One pass of the loop of the source, on line `i`. */
  lemma ScanFromStep<L>(lines: seq<string>, i: nat, s: Scan<L>, parseReal: string -> Option<real>,
                     parseKernel: string -> Option<KernelType>,
                     convertLabel: string -> Result<L, ConversionError>)
    requires i < |lines|
    ensures var step := HeaderStep(lines[i], s, parseReal, parseKernel, convertLabel);
      ScanFrom(lines, i, s, parseReal, parseKernel, convertLabel)
      == if step.Failure? then Failure(step.error)
         else if step.value.Stop? then Success(ScanEnd(s, i))
         else ScanFrom(lines, i + 1, step.value.scan, parseReal, parseKernel, convertLabel)
  {
    assert Reader(parseReal, parseKernel, convertLabel)(lines[i], s) == HeaderStep(lines[i], s, parseReal, parseKernel, convertLabel);
  }

  /** The loop reads entries up to the first `SV` line and stops there, and everything it
    read passed the line checks. */
  lemma {:induction false} ScanStopsAtSv<L>(lines: seq<string>, i: nat, s: Scan<L>, parseReal: string -> Option<real>,
                                         parseKernel: string -> Option<KernelType>,
                     convertLabel: string -> Result<L, ConversionError>)
    requires i <= |lines| && ScanChecked(s)
    requires ScanFrom(lines, i, s, parseReal, parseKernel, convertLabel).Success?
    ensures var e := ScanFrom(lines, i, s, parseReal, parseKernel, convertLabel).value;
      && ScanChecked(e.scan)
      && (forall j :: i <= j < e.headerLine ==> KeyOf(Entry(lines[j])).IsEntry())
      && (e.headerLine < |lines| ==> KeyOf(Entry(lines[e.headerLine])) == SvKey)
    decreases |lines| - i
  {
    if i < |lines| {
      var line := Entry(lines[i]);
      var key := KeyOf(line);
      EntryStepChecks(key, EntryValue(line), EntryValue(Trim(lines[i])), lines[i], s, parseReal, parseKernel, convertLabel);
      ScanFromStep(lines, i, s, parseReal, parseKernel, convertLabel);
      var step := HeaderStep(lines[i], s, parseReal, parseKernel, convertLabel);
      if step.value.Continue? {
        var e := ScanFrom(lines, i + 1, step.value.scan, parseReal, parseKernel, convertLabel).value;
        ScanStopsAtSv(lines, i + 1, step.value.scan, parseReal, parseKernel, convertLabel);
        assert ScanFrom(lines, i, s, parseReal, parseKernel, convertLabel).value == e;
        forall j | i <= j < e.headerLine
          ensures KeyOf(Entry(lines[j])).IsEntry()
        {
          if j == i {
            assert key.IsEntry();
          }
        }
      }
    }
  }

  // ---------------------------------------------------------------- checks after the loop

  /** The sum of the support vectors per class. */
  function Sum(nrSv: seq<nat>): nat {
    OneVsOne.Start(nrSv, |nrSv|)
  }

  /** The entries agree with each other, the kernel uses every parameter given, and
    support vectors follow `SV`. */
  predicate Consistent<L>(s: Scan<L>, headerLine: nat, numLines: nat) {
    && s.svmType && s.kernel.Some?
    && (s.kernel.value == Linear ==> s.degree.None? && s.gamma.None? && s.coef0.None?)
    && (s.kernel.value == Rbf ==> s.degree.None? && s.coef0.None?)
    && s.nrClass.Some? && s.totalSv.Some? && s.rho.Some? && s.labels.Some? && s.nrSv.Some?
    && s.nrClass.value == |s.labels.value| == |s.nrSv.value|
    && (s.nrClass.value == 2 ==> |s.rho.value| == 1)
    && Sum(s.nrSv.value) == s.totalSv.value
    && headerLine + 1 < numLines
  }

  /** The checks after the loop, in the source's order; the first that fails decides the
    error, and all pass exactly when the entries are consistent. */
  function Validate<L>(s: Scan<L>, headerLine: nat, numLines: nat): (v: Outcome<HeaderError>)
    ensures v.Pass? <==> Consistent(s, headerLine, numLines)
  {
    if !s.svmType then Fail(Missing(SvmType))
    else if s.kernel.None? then Fail(Missing(KernelTypeField))
    else if s.kernel.value == Linear && s.degree.Some? then Fail(UnusedParameter(Degree, Linear))
    else if s.kernel.value == Linear && s.gamma.Some? then Fail(UnusedParameter(Gamma, Linear))
    else if s.kernel.value == Linear && s.coef0.Some? then Fail(UnusedParameter(Coef0, Linear))
    else if s.kernel.value == Rbf && s.degree.Some? then Fail(UnusedParameter(Degree, Rbf))
    else if s.kernel.value == Rbf && s.coef0.Some? then Fail(UnusedParameter(Coef0, Rbf))
    else if s.nrClass.None? then Fail(Missing(NrClass))
    else if s.totalSv.None? then Fail(Missing(TotalSv))
    else if s.rho.None? then Fail(Missing(Rho))
    else if s.labels.None? then Fail(Missing(Label))
    else if s.nrClass.value != |s.labels.value| then Fail(LabelCountMismatch(s.nrClass.value, |s.labels.value|))
    else if s.nrSv.None? then Fail(Missing(NrSv))
    else if s.nrClass.value != |s.nrSv.value| then Fail(NrSvCountMismatch(s.nrClass.value, |s.nrSv.value|))
    else if s.nrClass.value == 2 && |s.rho.value| != 1 then Fail(BinaryRho(|s.rho.value|))
    else if Sum(s.nrSv.value) != s.totalSv.value then Fail(TotalMismatch(s.totalSv.value, Sum(s.nrSv.value)))
    else if headerLine + 1 >= numLines then Fail(NoSupportVectorLines)
    else Pass
  }

  // ---------------------------------------------------------------- labels of the support vectors

  /** `labels[0]` repeated `nrSv[0]` times, then `labels[1]` repeated `nrSv[1]` times, and
    so on, for the first `c` classes. */
  function DataLabelsUpTo<L>(labels: seq<L>, nrSv: seq<nat>, c: nat): (r: seq<L>)
    requires |labels| == |nrSv| && c <= |labels|
    ensures |r| == OneVsOne.Start(nrSv, c)
  {
    if c == 0 then []
    else DataLabelsUpTo(labels, nrSv, c - 1) + seq(nrSv[c - 1], _ => labels[c - 1])
  }

  function DataLabels<L>(labels: seq<L>, nrSv: seq<nat>): seq<L>
    requires |labels| == |nrSv|
  {
    DataLabelsUpTo(labels, nrSv, |labels|)
  }

  /** Support vector `s` of class `c`, the ones from `Start(nrSv, c)` on, carries `c`'s label. */
  lemma {:induction false} DataLabelsPlaced<L>(labels: seq<L>, nrSv: seq<nat>, c: nat, upTo: nat, s: nat)
    requires |labels| == |nrSv| && c < upTo <= |labels|
    requires OneVsOne.Start(nrSv, c) <= s < OneVsOne.Start(nrSv, c + 1)
    ensures s < |DataLabelsUpTo(labels, nrSv, upTo)| && DataLabelsUpTo(labels, nrSv, upTo)[s] == labels[c]
    decreases upTo
  {
    if c + 1 < upTo {
      OneVsOne.StartMonotone(nrSv, c + 1, upTo - 1);
      DataLabelsPlaced(labels, nrSv, c, upTo - 1, s);
    }
  }

  /** `std::fill` of the data labels, class by class, into a vector of `total` labels. */
  method FillDataLabels<L(0)>(labels: seq<L>, nrSv: seq<nat>, total: nat) returns (dataLabels: array<L>)
    requires |labels| == |nrSv| && Sum(nrSv) == total
    ensures fresh(dataLabels) && dataLabels[..] == DataLabels(labels, nrSv)
  {
    dataLabels := new L[total];
    var pos := 0;
    for i := 0 to |labels|
      invariant pos == OneVsOne.Start(nrSv, i) <= total
      invariant dataLabels[..pos] == DataLabelsUpTo(labels, nrSv, i)
    {
      OneVsOne.StartMonotone(nrSv, i + 1, |labels|);
      ghost var before := dataLabels[..pos];
      forall k | pos <= k < pos + nrSv[i] {
        dataLabels[k] := labels[i];
      }
      assert dataLabels[..pos + nrSv[i]] == before + seq(nrSv[i], _ => labels[i]);
      pos := pos + nrSv[i];
    }
    assert dataLabels[..] == dataLabels[..pos];
  }

  // ---------------------------------------------------------------- the whole header

  /** `parse_libsvm_model_header(lines)`, with the conversions of reals and of the kernel
    type as parameters. */
  function ParseHeader<L(==)>(lines: seq<string>, parseReal: string -> Option<real>,
                       parseKernel: string -> Option<KernelType>,
                     convertLabel: string -> Result<L, ConversionError>): Result<Header<L>, HeaderError>
  {
    var e := ScanFrom(lines, 0, NoEntries(), parseReal, parseKernel, convertLabel);
    if e.Failure? then Failure(e.error)
    else
      var s := e.value.scan;
      var v := Validate(s, e.value.headerLine, |lines|);
      if v.Fail? then Failure(v.error)
      else Success(Header(Parameters(s.kernel.value, s.gamma, s.degree, s.coef0), s.rho.value,
                          DataLabels(s.labels.value, s.nrSv.value), s.labels.value, s.nrSv.value,
                          e.value.headerLine + 1))
  }

  /** The header loop: every line in turn up to `SV`, updating the entries read; `read`
    is the pass over one line. */
  method ScanHeader<L>(lines: seq<string>, read: LineReader<L>) returns (r: Result<ScanEnd<L>, HeaderError>)
    ensures r == ScanWith(lines, 0, NoEntries(), read)
  {
    var scan := NoEntries();
    var headerLine := 0;
    while headerLine < |lines|
      invariant headerLine <= |lines|
      invariant ScanWith(lines, 0, NoEntries(), read) == ScanWith(lines, headerLine, scan, read)
    {
      var step := read(lines[headerLine], scan);
      if step.Failure? {
        return Failure(step.error);
      }
      if step.value.Stop? {
        break;
      }
      scan := step.value.scan;
      headerLine := headerLine + 1;
    }
    return Success(ScanEnd(scan, headerLine));
  }

  /** `parse_libsvm_model_header`: the header loop, the checks and the labels of the
    support vectors. */
  method ParseModelHeader<L(==,0)>(lines: seq<string>, parseReal: string -> Option<real>,
                          parseKernel: string -> Option<KernelType>,
                     convertLabel: string -> Result<L, ConversionError>) returns (r: Result<Header<L>, HeaderError>)
    ensures r == ParseHeader(lines, parseReal, parseKernel, convertLabel)
  {
    var e := ScanHeader(lines, Reader(parseReal, parseKernel, convertLabel));
    if e.Failure? {
      return Failure(e.error);
    }
    var scan, headerLine := e.value.scan, e.value.headerLine;
    var v := Validate(scan, headerLine, |lines|);
    if v.Fail? {
      return Failure(v.error);
    }
    var dataLabels := FillDataLabels(scan.labels.value, scan.nrSv.value, scan.totalSv.value);
    return Success(Header(Parameters(scan.kernel.value, scan.gamma, scan.degree, scan.coef0), scan.rho.value,
                          dataLabels[..], scan.labels.value, scan.nrSv.value, headerLine + 1));
  }

  // ---------------------------------------------------------------- what a header yields

  /** A header that parses is consistent: at least two distinct labels, one count per
    label, the rho values binary classification needs, one label per support vector
    (a positive number of them), a kernel that uses every parameter given, and an `SV`
    line before the last line, preceded only by entries. */
  lemma ParseHeaderConsistent<L>(lines: seq<string>, parseReal: string -> Option<real>,
                              parseKernel: string -> Option<KernelType>,
                     convertLabel: string -> Result<L, ConversionError>)
    requires ParseHeader(lines, parseReal, parseKernel, convertLabel).Success?
    ensures var h := ParseHeader(lines, parseReal, parseKernel, convertLabel).value;
      && |h.labels| >= 2 && Distinct(h.labels) && |h.nrSv| == |h.labels|
      && |h.rho| >= 1 && (|h.labels| == 2 ==> |h.rho| == 1)
      && |h.dataLabels| == Sum(h.nrSv) > 0
      && (h.params.kernel == Linear ==> h.params.gamma.None? && h.params.degree.None? && h.params.coef0.None?)
      && (h.params.kernel == Rbf ==> h.params.degree.None? && h.params.coef0.None?)
      && 0 < h.skipped < |lines|
      && KeyOf(Entry(lines[h.skipped - 1])) == SvKey
      && forall j :: 0 <= j < h.skipped - 1 ==> KeyOf(Entry(lines[j])).IsEntry()
  {
    ScanStopsAtSv(lines, 0, NoEntries(), parseReal, parseKernel, convertLabel);
  }

  /** Support vector `s` of class `c` carries the label of `c`. */
  lemma ParseHeaderDataLabels<L>(lines: seq<string>, parseReal: string -> Option<real>,
                              parseKernel: string -> Option<KernelType>,
                     convertLabel: string -> Result<L, ConversionError>, c: nat, s: nat)
    requires ParseHeader(lines, parseReal, parseKernel, convertLabel).Success?
    requires var h := ParseHeader(lines, parseReal, parseKernel, convertLabel).value;
      c < |h.labels| == |h.nrSv| && OneVsOne.Start(h.nrSv, c) <= s < OneVsOne.Start(h.nrSv, c + 1)
    ensures var h := ParseHeader(lines, parseReal, parseKernel, convertLabel).value;
      s < |h.dataLabels| && h.dataLabels[s] == h.labels[c]
  {
    var h := ParseHeader(lines, parseReal, parseKernel, convertLabel).value;
    DataLabelsPlaced(h.labels, h.nrSv, c, |h.labels|, s);
  }

  /** A header of a single `SV` line lacks its first required entry. */
  lemma OnlySvMissesSvmType<L>(data: string, parseReal: string -> Option<real>, parseKernel: string -> Option<KernelType>,
                     convertLabel: string -> Result<L, ConversionError>)
    ensures ParseHeader(["SV", data], parseReal, parseKernel, convertLabel) == Failure(Missing(SvmType))
  {
    SvLineStops(NoEntries(), parseReal, parseKernel, convertLabel);
    ScanStopsAt(["SV", data], 0, NoEntries(), parseReal, parseKernel, convertLabel);
  }

  /** The line `SV` stops the loop. */
  lemma SvLineStops<L>(s: Scan<L>, parseReal: string -> Option<real>, parseKernel: string -> Option<KernelType>,
                     convertLabel: string -> Result<L, ConversionError>)
    ensures HeaderStep("SV", s, parseReal, parseKernel, convertLabel) == Success(Stop)
  {
    SvEntry();
    SvKeyStops("SV", s, parseReal, parseKernel, convertLabel);
  }

  lemma SvEntry()
    ensures Entry("SV") == "sv"
  {
    TrimLeftAt("SV", 0);
    TrimRightAt("SV", 2);
    assert "SV"[0..] == "SV" && "SV"[..2] == "SV";
  }

  /** A line reading `sv` once trimmed and lower-cased stops the loop. */
  lemma SvKeyStops<L>(raw: string, s: Scan<L>, parseReal: string -> Option<real>, parseKernel: string -> Option<KernelType>,
                     convertLabel: string -> Result<L, ConversionError>)
    requires Entry(raw) == "sv"
    ensures HeaderStep(raw, s, parseReal, parseKernel, convertLabel) == Success(Stop)
  {
    assert KeyOf(Entry(raw)) == SvKey;
  }

  /** A line the loop stops at ends the scan there, whatever follows. */
  lemma ScanStopsAt<L>(lines: seq<string>, i: nat, s: Scan<L>, parseReal: string -> Option<real>,
                    parseKernel: string -> Option<KernelType>,
                     convertLabel: string -> Result<L, ConversionError>)
    requires i < |lines| && HeaderStep(lines[i], s, parseReal, parseKernel, convertLabel) == Success(Stop)
    ensures ScanFrom(lines, i, s, parseReal, parseKernel, convertLabel) == Success(ScanEnd(s, i))
  {
    ScanFromStep(lines, i, s, parseReal, parseKernel, convertLabel);
  }

  // ---------------------------------------------------------------- the sum as written

  /** `std::accumulate` over `size_type` values: the sum modulo 2^64. */
  function WrappedSum(nrSv: seq<nat>): nat {
    Sum(nrSv) % (SIZE_MAX + 1)
  }

  /** The check as written compares the wrapped sum with `total_sv`: counts of 2^64 - 1
    and 2 pass it for a total of 1, and the labels then filled number 2^64 + 1. */
  lemma NrSvSumWrapsAsWritten()
    ensures var nrSv := [SIZE_MAX as nat, 2];
      && WrappedSum(nrSv) == 1
      && Sum(nrSv) == SIZE_MAX + 2
      && |DataLabels(["a", "b"], nrSv)| == SIZE_MAX + 2
  {
    var nrSv := [SIZE_MAX as nat, 2];
    assert OneVsOne.Start(nrSv, 1) == SIZE_MAX;
  }

  /** The model compares the exact sum instead: the counts above are rejected for a total
    of 1, and every accepted header fills exactly `total_sv` labels. */
  lemma NrSvSumChecked<L>(s: Scan<L>, headerLine: nat, numLines: nat)
    requires s.nrSv == Some([SIZE_MAX as nat, 2]) && s.totalSv == Some(1)
    ensures !Consistent(s, headerLine, numLines)
  {
    assert OneVsOne.Start([SIZE_MAX as nat, 2], 1) == SIZE_MAX;
  }
}
