/** The parameter object of the library: the file names it derives, the kernel fields the
  model file overwrites, and the data, labels and weights it reads from LIBSVM, ARFF and
  LIBSVM model files. */
module Parameter {
  import opened Wrappers
  import opened StringUtility
  import LibsvmParsing
  import opened LibsvmFile
  import Arff
  import MH = ModelHeader
  import ModelFile

  // ---------------------------------------------------------------- file names

  /** The characters `find_last_of("/\\")` looks for. */
  predicate IsSeparator(c: char) {
    c == '/' || c == '\\'
  }

  /** The position of the last path separator, if any. */
  function LastSeparator(name: string): (r: Option<nat>)
    ensures r.Some? ==> r.value < |name| && IsSeparator(name[r.value])
    ensures r.Some? ==> forall j :: r.value < j < |name| ==> !IsSeparator(name[j])
    ensures r.None? ==> forall j :: 0 <= j < |name| ==> !IsSeparator(name[j])
  {
    if |name| == 0 then None
    else if IsSeparator(name[|name| - 1]) then Some(|name| - 1)
    else LastSeparator(name[..|name| - 1])
  }

  /** The part after the last separator: `substr(pos + 1)`, where `npos + 1` wraps to 0
    and keeps the whole name. */
  function BaseName(name: string): (b: string)
    ensures |b| <= |name| && b == name[|name| - |b|..]
    ensures forall j :: 0 <= j < |b| ==> !IsSeparator(b[j])
  {
    match LastSeparator(name)
    case None => name
    case Some(p) => name[p + 1..]
  }

  /** The model file name derived from an input file name: in the current directory,
    whatever directory the input is in, with the suffix `.model`. */
  function ModelNameFromInput(input: string): (r: string)
    ensures EndsWith(r, ".model") && forall j :: 0 <= j < |r| ==> !IsSeparator(r[j])
  {
    BaseName(input) + ".model"
  }

  /** The prediction file name derived from an input file name, likewise with `.predict`. */
  function PredictNameFromInput(input: string): (r: string)
    ensures EndsWith(r, ".predict") && forall j :: 0 <= j < |r| ==> !IsSeparator(r[j])
  {
    BaseName(input) + ".predict"
  }

  /** The base name of a path is its file's name, whatever directory precedes it. */
  lemma BaseNameOfPath(dir: string, sep: char, file: string)
    requires IsSeparator(sep)
    requires forall j :: 0 <= j < |file| ==> !IsSeparator(file[j])
    ensures BaseName(dir + [sep] + file) == file
  {
    var name := dir + [sep] + file;
    assert name[|dir|] == sep;
    var p := LastSeparator(name);
    assert p.Some? && p.value == |dir| by {
      forall j | |dir| < j < |name|
        ensures !IsSeparator(name[j])
      {
        assert name[j] == file[j - |dir| - 1];
      }
    }
    assert name[|dir| + 1..] == file;
  }

  /** A name without separators is its own base name; so taking the base name twice
    changes nothing. */
  lemma BaseNameIdempotent(name: string)
    ensures BaseName(BaseName(name)) == BaseName(name)
  {
    var b := BaseName(name);
    assert LastSeparator(b).None?;
  }

  /** Derived names differ exactly where the base names differ: the model name and the
    prediction name of one input are never equal, and two inputs give the same model name
    exactly when they share a base name. */
  lemma DerivedNames(input: string, other: string)
    ensures ModelNameFromInput(input) != PredictNameFromInput(input)
    ensures ModelNameFromInput(input) == ModelNameFromInput(other) <==> BaseName(input) == BaseName(other)
  {
    if ModelNameFromInput(input) == ModelNameFromInput(other) {
      assert BaseName(input) == ModelNameFromInput(input)[..|BaseName(input)|];
      assert BaseName(other) == ModelNameFromInput(other)[..|BaseName(other)|];
    }
  }

  /** The names after reading a data file: the input name becomes the file read; the model
    name follows it when it was empty or derived from the old input, and is kept when the
    user chose it. */
  function RenameInput(input: string, model: string, filename: string): (r: (string, string))
    ensures r.0 == filename && (r.1 == model || r.1 == ModelNameFromInput(filename))
  {
    if model == ModelNameFromInput(input) || model == [] then (filename, ModelNameFromInput(filename))
    else (filename, model)
  }

  /** The names after reading a model file: the model name becomes the file read; the
    prediction name is derived from the input when it was empty or already derived. */
  function RenameModel(input: string, predict: string, filename: string): (r: (string, string))
    ensures r.0 == filename && (r.1 == predict || r.1 == PredictNameFromInput(input))
  {
    if predict == PredictNameFromInput(input) || predict == [] then (filename, PredictNameFromInput(input))
    else (filename, predict)
  }

  /** Reading a data file makes it the input; a derived (or empty) model name follows the
    new input, a name the user chose is kept, and reading the same file again changes no
    name. */
  lemma RenameInputStable(input: string, model: string, filename: string)
    ensures var (i, m) := RenameInput(input, model, filename);
      && i == filename
      && (model == [] || model == ModelNameFromInput(input) ==> m == ModelNameFromInput(i))
      && (model != [] && model != ModelNameFromInput(input) ==> m == model)
      && RenameInput(i, m, filename) == (i, m)
  {
  }

  /** Reading a model file makes it the model name; the prediction name is derived from
    the input file, not from the model file, unless the user chose one, so reading another
    model file keeps it. */
  lemma RenameModelStable(input: string, predict: string, filename: string, other: string)
    ensures var (m, p) := RenameModel(input, predict, filename);
      && m == filename
      && (predict == [] || predict == PredictNameFromInput(input) ==> p == PredictNameFromInput(input))
      && (predict != [] && predict != PredictNameFromInput(input) ==> p == predict)
      && RenameModel(input, p, other) == (other, p)
  {
  }

  // ---------------------------------------------------------------- what the readers yield

  /** `gamma` after reading points with `features` features: a zero gamma becomes the
    reciprocal of the feature count; any other stays. */
  function UpdateGamma(gamma: real, features: nat): (g: real)
    requires features > 0
    ensures gamma != 0.0 ==> g == gamma
    ensures gamma == 0.0 ==> g * features as real == 1.0 && g > 0.0
  {
    if gamma == 0.0 then 1.0 / features as real else gamma
  }

  /** `parse_libsvm` on the lines of a file: the rows and, when every line is labelled and
    the first label is not the marker, the labels mapped to 1 and -1. */
  function ReadLibsvm(lines: seq<string>, parseReal: string -> Option<real>, realMax: real)
    : Result<(seq<seq<real>>, Option<seq<real>>), FormatError>
  {
    var e := ReadFile(lines, seq(|lines|, _ => []), LibsvmParsing.Zeros(|lines|), parseReal, realMax);
    if e.Failure? then Failure(e.error)
    else if |e.value.1| == 0 then Success((e.value.0, None))
    else Success((e.value.0, SignLabels(e.value.1, realMax)))
  }

  /** A LIBSVM file that parses gives one row per line, all of one positive width, and
    labels, when kept, of 1 or -1 for every line. */
  lemma ReadLibsvmShape(lines: seq<string>, parseReal: string -> Option<real>, realMax: real)
    requires ReadLibsvm(lines, parseReal, realMax).Success?
    ensures var (rows, labels) := ReadLibsvm(lines, parseReal, realMax).value;
      && |rows| == |lines| > 0
      && (forall i :: 0 <= i < |lines| ==> |rows[i]| == |rows[0]| > 0)
      && (labels.Some? ==> |labels.value| == |lines|)
      && (labels.Some? ==> forall i :: 0 <= i < |lines| ==> labels.value[i] == 1.0 || labels.value[i] == -1.0)
  {
    ReadFileRows(lines, seq(|lines|, _ => []), LibsvmParsing.Zeros(|lines|), parseReal, realMax);
    ReadFileValues(lines, seq(|lines|, _ => []), LibsvmParsing.Zeros(|lines|), parseReal, realMax);
  }

  /** The gamma `parse_arff` leaves: the reciprocal of the row width when gamma was zero
    and the rows are not empty; any other gamma stays. */
  function ArffGamma(gamma: real, h: Arff.ArffHeader): (g: real)
    requires h.hasLabel ==> h.numAttributes > 0
    ensures gamma != 0.0 || Arff.ColumnEnd(h) == 0 ==> g == gamma
    ensures gamma == 0.0 && Arff.ColumnEnd(h) > 0 ==> g * Arff.ColumnEnd(h) as real == 1.0
  {
    if Arff.ColumnEnd(h) == 0 then gamma else UpdateGamma(gamma, Arff.ColumnEnd(h))
  }

  /** The kernel fields after the header loop of a model file. */
  function ScanFields(s: ModelFile.ModelScan): (MH.KernelType, real, int, real, real) {
    (s.kernel, s.gamma, s.degree, s.coef0, s.rho)
  }

  // ---------------------------------------------------------------- the parameter object

  /** A file reader: the lines of the named file, blank lines and lines starting with the
    comment character dropped. */
  type Reader = (string, char) -> seq<string>

  class Parameter {
    var inputFilename: string
    var modelFilename: string
    var predictFilename: string
    var kernel: MH.KernelType
    var gamma: real
    var degree: int
    var coef0: real
    var rho: real
    /** The shared pointers: `None` is a null pointer. */
    var data: Option<seq<seq<real>>>
    var values: Option<seq<real>>
    var alphas: Option<seq<real>>

    constructor(kernel: MH.KernelType, gamma: real, degree: int, coef0: real)
      ensures this.kernel == kernel && this.gamma == gamma && this.degree == degree && this.coef0 == coef0
      ensures rho == 0.0 && inputFilename == [] && modelFilename == [] && predictFilename == []
      ensures data.None? && values.None? && alphas.None?
    {
      this.kernel, this.gamma, this.degree, this.coef0 := kernel, gamma, degree, coef0;
      rho := 0.0;
      inputFilename, modelFilename, predictFilename := [], [], [];
      data, values, alphas := None, None, None;
    }

    /** The labels of a LIBSVM file: 1 for a positive label, -1 for any other. */
    static method SignValues(v: array<real>)
      modifies v
      ensures forall i :: 0 <= i < v.Length ==> v[i] == if old(v[i]) > 0.0 then 1.0 else -1.0
    {
      for i := 0 to v.Length
        invariant forall k :: 0 <= k < i ==> v[k] == if old(v[k]) > 0.0 then 1.0 else -1.0
        invariant forall k :: i <= k < v.Length ==> v[k] == old(v[k])
      {
        v[i] := if v[i] > 0.0 then 1.0 else -1.0;
      }
    }

    /** The reading part of `parse_libsvm`: the lines into freshly sized vectors, then the
      labels mapped to signs unless the first one is the marker. */
    static method ReadLibsvmLines(lines: seq<string>, parseReal: string -> Option<real>, realMax: real)
      returns (r: Result<(seq<seq<real>>, Option<seq<real>>), FormatError>)
      ensures r == ReadLibsvm(lines, parseReal, realMax)
    {
      var d := new seq<real>[|lines|](_ => []);
      var v := new real[|lines|](_ => 0.0);
      assert d[..] == seq(|lines|, _ => []);
      assert v[..] == LibsvmParsing.Zeros(|lines|);
      var outcome := ParseLibsvmFile(lines, d, v, parseReal, realMax);
      if outcome.Fail? {
        return Failure(outcome.error);
      }
      if v.Length == 0 {
        return Success((d[..], None));
      }
      if v[0] == realMax {
        return Success((d[..], None));
      }
      ghost var read := v[..];
      SignValues(v);
      assert v[..] == SignLabels(read, realMax).value;
      r := Success((d[..], Some(v[..])));
    }

    /** The new file names after reading a data file. */
    method SetInputNames(filename: string)
      modifies this
      ensures (inputFilename, modelFilename) == RenameInput(old(inputFilename), old(modelFilename), filename)
      ensures predictFilename == old(predictFilename) && kernel == old(kernel) && gamma == old(gamma)
      ensures degree == old(degree) && coef0 == old(coef0) && rho == old(rho)
      ensures data == old(data) && values == old(values) && alphas == old(alphas)
    {
      var derived := ModelNameFromInput(inputFilename);
      if modelFilename == derived || modelFilename == [] {
        modelFilename := ModelNameFromInput(filename);
      }
      inputFilename := filename;
    }

    /** Gamma and the labels after reading a data file. */
    method SetLabels(g: real, labels: Option<seq<real>>)
      modifies this
      ensures gamma == g && values == labels
      ensures inputFilename == old(inputFilename) && modelFilename == old(modelFilename)
      ensures predictFilename == old(predictFilename) && kernel == old(kernel)
      ensures degree == old(degree) && coef0 == old(coef0) && rho == old(rho)
      ensures data == old(data) && alphas == old(alphas)
    {
      gamma, values := g, labels;
    }

    /** `parse_libsvm`: reads the file with comment character `#` into `rows` (the pointer
      the caller passed), updates the names, gamma and the labels. */
    method ParseLibsvm(filename: string, reader: Reader, parseReal: string -> Option<real>, realMax: real)
      returns (outcome: Outcome<FormatError>, rows: seq<seq<real>>)
      modifies this
      ensures (inputFilename, modelFilename) == RenameInput(old(inputFilename), old(modelFilename), filename)
      ensures predictFilename == old(predictFilename) && kernel == old(kernel) && degree == old(degree)
      ensures coef0 == old(coef0) && rho == old(rho) && data == old(data) && alphas == old(alphas)
      ensures var r := ReadLibsvm(reader(filename, '#'), parseReal, realMax);
        && (r.Failure? ==> outcome == Fail(r.error) && gamma == old(gamma) && values == old(values))
        && (r.Success? ==> outcome == Pass && rows == r.value.0 && values == r.value.1
                           && |rows| > 0 && |rows[0]| > 0 && gamma == UpdateGamma(old(gamma), |rows[0]|))
    {
      SetInputNames(filename);
      var lines := reader(filename, '#');
      var r := ReadLibsvmLines(lines, parseReal, realMax);
      if r.Failure? {
        return Fail(r.error), [];
      }
      outcome, rows := Pass, r.value.0;
      assert |rows| > 0 && |rows[0]| > 0 by {
        ReadLibsvmShape(lines, parseReal, realMax);
      }
      var g := gamma;
      if g == 0.0 {
        g := 1.0 / |rows[0]| as real;
      }
      SetLabels(g, r.value.1);
    }

    /** `parse_arff`: reads the file with comment character `%` into `rows`, updates the
      names, gamma and the labels (always set, zero for unlabelled points). */
    method ParseArff(filename: string, reader: Reader, parseReal: string -> Option<real>)
      returns (outcome: Outcome<FormatError>, rows: seq<seq<real>>)
      modifies this
      ensures (inputFilename, modelFilename) == RenameInput(old(inputFilename), old(modelFilename), filename)
      ensures predictFilename == old(predictFilename) && kernel == old(kernel) && degree == old(degree)
      ensures coef0 == old(coef0) && rho == old(rho) && data == old(data) && alphas == old(alphas)
      ensures var r := Arff.ReadArff(reader(filename, '%'), parseReal);
        && (r.Failure? ==> outcome == Fail(r.error) && gamma == old(gamma) && values == old(values))
        && (r.Success? ==> outcome == Pass && rows == r.value.1 && values == Some(r.value.2)
                           && r.value.0.numAttributes > 0
                           && gamma == ArffGamma(old(gamma), r.value.0))
    {
      SetInputNames(filename);
      var h, d, v := Arff.ParseArff(reader(filename, '%'), parseReal);
      if h.Failure? {
        return Fail(h.error), [];
      }
      outcome, rows := Pass, d[..];
      var width := Arff.ColumnEnd(h.value);
      var g := gamma;
      if g == 0.0 && width > 0 {
        g := 1.0 / width as real;
      }
      SetLabels(g, Some(v[..]));
    }

    /** `parse_file`: an `.arff` name is read as ARFF, any other as LIBSVM. */
    method ParseFile(filename: string, reader: Reader, parseReal: string -> Option<real>, realMax: real)
      returns (outcome: Outcome<FormatError>, rows: seq<seq<real>>)
      modifies this
      ensures (inputFilename, modelFilename) == RenameInput(old(inputFilename), old(modelFilename), filename)
      ensures EndsWith(filename, ".arff") ==>
        var r := Arff.ReadArff(reader(filename, '%'), parseReal);
        && (outcome.Pass? <==> r.Success?)
        && (r.Success? ==> rows == r.value.1 && values == Some(r.value.2))
      ensures !EndsWith(filename, ".arff") ==>
        var r := ReadLibsvm(reader(filename, '#'), parseReal, realMax);
        && (outcome.Pass? <==> r.Success?)
        && (r.Success? ==> rows == r.value.0 && values == r.value.1)
    {
      if EndsWith(filename, ".arff") {
        outcome, rows := ParseArff(filename, reader, parseReal);
      } else {
        outcome, rows := ParseLibsvm(filename, reader, parseReal, realMax);
      }
    }

    /** `parse_model_file` after the header loop: the checks, the support vectors read as
      a LIBSVM file into `numSv` freshly sized vectors, then the labels. */
    static method ReadSupportVectors(lines: seq<string>, s: ModelFile.ModelScan, stop: ModelFile.ScanStop,
                                     parseReal: string -> Option<real>, realMax: real)
      returns (r: Result<ModelFile.ModelRead, FormatError>)
      requires stop.AtSv? ==> stop.headerLine < |lines|
      requires ModelFile.ScanValid(s)
      ensures r == ModelFile.ReadModelData(lines, s, stop, parseReal, realMax)
    {
      if stop.Rejected? {
        return Failure(stop.error);
      }
      var check := ModelFile.MissingCheck(s, stop);
      if check.Fail? {
        return Failure(check.error);
      }
      if stop.headerLine + 1 + s.numSv > |lines| {
        return Failure(TooFewSupportVectors(|lines| - stop.headerLine - 1, s.numSv));
      }
      var svLines := ModelFile.SupportVectorLines(lines, stop.headerLine, s.numSv);
      var d := new seq<real>[s.numSv](_ => []);
      var a := new real[s.numSv](_ => 0.0);
      assert d[..] == seq(s.numSv, _ => []);
      assert a[..] == LibsvmParsing.Zeros(s.numSv);
      var outcome := ParseLibsvmFile(svLines, d, a, parseReal, realMax);
      if outcome.Fail? {
        return Failure(outcome.error);
      }
      var v := ModelFile.FillValues(s.labels, s.counts.value.0, s.counts.value.1);
      r := Success(ModelFile.ModelRead(v[..], d[..], a[..]));
    }

    /** The reading part of `parse_model_file`: the header loop from the given fields, then
      the rest of the file. */
    static method ReadModelLines(lines: seq<string>, start: ModelFile.ModelScan, parseReal: string -> Option<real>,
                                 parseKernel: string -> Option<MH.KernelType>, realMax: real)
      returns (s: ModelFile.ModelScan, r: Result<ModelFile.ModelRead, FormatError>)
      requires ModelFile.ScanValid(start)
      ensures (s, r) == ModelFile.ReadModel(lines, start, parseReal, parseKernel, realMax)
    {
      var stop;
      s, stop := ModelFile.ScanModelHeader(lines, start, ModelFile.ModelReader(parseReal, parseKernel));
      assert ModelFile.ScanValid(s) by {
        ModelFile.ModelScanStops(lines, 0, start, parseReal, parseKernel);
      }
      r := ReadSupportVectors(lines, s, stop, parseReal, realMax);
    }

    /** The new file names after reading a model file. */
    method SetModelNames(filename: string)
      modifies this
      ensures (modelFilename, predictFilename) == RenameModel(old(inputFilename), old(predictFilename), filename)
      ensures inputFilename == old(inputFilename) && kernel == old(kernel) && gamma == old(gamma)
      ensures degree == old(degree) && coef0 == old(coef0) && rho == old(rho)
      ensures data == old(data) && values == old(values) && alphas == old(alphas)
    {
      if predictFilename == PredictNameFromInput(inputFilename) || predictFilename == [] {
        modelFilename := filename;
        predictFilename := PredictNameFromInput(inputFilename);
      }
      modelFilename := filename;
    }

    /** The fields `parse_model_file` writes, from what it read: the kernel fields and the
      labels pointer as the header loop left them, whether or not a later step failed, and
      the support vectors and weights only when the whole file was read. */
    method StoreModel(s: ModelFile.ModelScan, r: Result<ModelFile.ModelRead, FormatError>)
      modifies this
      ensures (kernel, gamma, degree, coef0, rho) == ScanFields(s)
      ensures inputFilename == old(inputFilename) && modelFilename == old(modelFilename) && predictFilename == old(predictFilename)
      ensures values == ModelFile.ValuesAfterScan(s)
      ensures r.Failure? ==> data == old(data) && alphas == old(alphas)
      ensures r.Success? ==> data == Some(r.value.data) && alphas == Some(r.value.alphas)
    {
      kernel, gamma, degree, coef0, rho := s.kernel, s.gamma, s.degree, s.coef0, s.rho;
      values := ModelFile.ValuesAfterScan(s);
      if r.Success? {
        data, alphas := Some(r.value.data), Some(r.value.alphas);
      }
    }

    /** `parse_model_file`: reads the model file with comment character `#`. The header
      loop writes the kernel fields, and the labels once `nr_sv` is read, even when the file
      is rejected later; the support vectors and their weights are set only when the whole
      file is read. */
    method ParseModelFile(filename: string, reader: Reader, parseReal: string -> Option<real>,
                          parseKernel: string -> Option<MH.KernelType>, realMax: real)
      returns (outcome: Outcome<FormatError>)
      modifies this
      ensures (modelFilename, predictFilename) == RenameModel(old(inputFilename), old(predictFilename), filename)
      ensures inputFilename == old(inputFilename)
      ensures var (s, r) := ModelFile.ReadModel(reader(filename, '#'),
                                               ModelFile.StartScan(old(kernel), old(gamma), old(degree), old(coef0), old(rho)),
                                               parseReal, parseKernel, realMax);
        && (kernel, gamma, degree, coef0, rho) == ScanFields(s)
        && values == ModelFile.ValuesAfterScan(s)
        && (r.Failure? ==> outcome == Fail(r.error) && data == old(data) && alphas == old(alphas))
        && (r.Success? ==> outcome == Pass && values == Some(r.value.values)
                           && data == Some(r.value.data) && alphas == Some(r.value.alphas))
    {
      SetModelNames(filename);
      ghost var start := ModelFile.StartScan(kernel, gamma, degree, coef0, rho);
      var s, r := ReadModelLines(reader(filename, '#'), ModelFile.StartScan(kernel, gamma, degree, coef0, rho),
                                 parseReal, parseKernel, realMax);
      if r.Success? {
        ModelFile.ReadModelValues(reader(filename, '#'), start, parseReal, parseKernel, realMax);
      }
      StoreModel(s, r);
      outcome := if r.Failure? then Fail(r.error) else Pass;
    }
  }
}
