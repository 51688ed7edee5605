/** Reading the data section of a LIBSVM model file (`parse_libsvm_model_data` in
  libsvm_model_parsing.hpp). Every line holds the weights of one support vector followed
  by its `index:value` features, as in `0.5 -0.25 1:0.3 4:1.0`. A line with as many
  weights as the maximum makes the file one-vs-all; one fewer makes it one-vs-one, whose
  weights are then remapped to one sequence per pair of classes. */
module ModelData {
  import opened Wrappers
  import opened StringUtility
  import opened LibsvmParsing
  import opened OneVsOne

  /** The exceptions `parse_libsvm_model_data` throws, in the model's terms. */
  datatype ModelDataError =
    | FeatureCount(conversion: ConversionError)         // the feature count scan could not read an index
    | NoSupportVectors                                  // no feature index in the data section
    | TooManyWeights(atMost: nat)                       // more weights than the maximum
    | TooFewWeights(atLeast: nat, found: nat)           // fewer weights than the minimum
    | BadWeight(weightText: string)                     // a weight does not convert
    | BadFeature(error: ParseError)                     // the feature loop threw
    | AmbiguousClassification                           // one-vs-all and one-vs-one lines mixed
    | NoClassification                                  // neither kind of line
    | TooFewSupportVectors(expected: nat, found: nat)   // fewer data lines than support vectors

  /** The errors one data line can raise. */
  predicate LineFailure(e: ModelDataError) {
    e.TooManyWeights? || e.TooFewWeights? || e.BadWeight? || e.BadFeature?
  }

  /** How many weights a line may carry: one for two classes, else one per class. */
  function MaxWeights(numClasses: nat): nat {
    if numClasses == 2 then 1 else numClasses
  }

  /** The smallest weight count the source accepts: one fewer than the maximum. */
  function MinWeightsAsWritten(numClasses: nat): nat
    requires numClasses >= 2
  {
    MaxWeights(numClasses) - 1
  }

  /** The smallest weight count a one-vs-one line needs: one per other class. */
  function MinWeights(numClasses: nat): nat
    requires numClasses >= 2
  {
    numClasses - 1
  }

  /** The two minima agree except for two classes, where the source lets a line without
    any weight through. */
  lemma MinWeightsDiffer(numClasses: nat)
    requires numClasses >= 2
    ensures MinWeights(numClasses) == MinWeightsAsWritten(numClasses) <==> numClasses != 2
    ensures numClasses == 2 ==> MinWeightsAsWritten(numClasses) == 0 && MinWeights(numClasses) == 1
  {
  }

  // ---------------------------------------------------------------- the weights of one line

  /** The weights read and the cursor where the features start. */
  datatype Weights = Weights(values: seq<real>, cursor: nat)

  /** `line.substr(pos, next_pos)`: the second argument is a length, so the text runs to
    `pos + next_pos` or to the end of the line, whichever comes first. */
  function WeightText(line: string, pos: nat, next: Option<nat>): (t: string)
    requires pos <= |line|
    ensures t <= line[pos..]
    ensures next.Some? && next.value < |line| - pos ==> |t| == next.value
  {
    var end := if next.Some? && pos + next.value < |line| then pos + next.value else |line|;
    line[pos..end]
  }

  /** The weights loop as the source writes it. A token is a weight while it ends before
    the first ':' (or newline) of the line. After a token the cursor moves past the
    separator; when no separator is left, `npos + 1` wraps round to 0 and the loop reads
    the line again from its start until the maximum is exceeded. */
  function WeightsAsWritten(line: string, firstColon: Option<nat>, pos: nat, maxN: nat, done: seq<real>,
                            parseReal: string -> Option<real>): (r: Result<Weights, ModelDataError>)
    requires pos <= |line| && |done| <= maxN
    decreases maxN - |done|
  {
    var next := FindFirst(line, {' ', '\n'}, pos);
    if !NotBefore(firstColon, next) then Success(Weights(done, pos))
    else if |done| >= maxN then Failure(TooManyWeights(maxN))
    else
      var text := WeightText(line, pos, next);
      var w := parseReal(text);
      if w.None? then Failure(BadWeight(text))
      else WeightsAsWritten(line, firstColon, if next.Some? then next.value + 1 else 0, maxN, done + [w.value], parseReal)
  }

  /** The weights loop as the model reads it: the same tokens, but the loop ends at the end
    of the line instead of starting over. */
  function LineWeights(line: string, firstColon: Option<nat>, pos: nat, maxN: nat, done: seq<real>,
                       parseReal: string -> Option<real>): (r: Result<Weights, ModelDataError>)
    requires pos <= |line| && |done| <= maxN
    ensures r.Success? ==> done <= r.value.values && |r.value.values| <= maxN && pos <= r.value.cursor <= |line|
    ensures r.Failure? ==> r.error.TooManyWeights? || r.error.BadWeight?
    decreases maxN - |done|
  {
    var next := FindFirst(line, {' ', '\n'}, pos);
    if pos == |line| || !NotBefore(firstColon, next) then Success(Weights(done, pos))
    else if |done| >= maxN then Failure(TooManyWeights(maxN))
    else
      var text := WeightText(line, pos, next);
      var w := parseReal(text);
      if w.None? then Failure(BadWeight(text))
      else LineWeights(line, firstColon, if next.Some? then next.value + 1 else |line|, maxN, done + [w.value], parseReal)
  }

  /** On a line that has a ':' the loop stops before the separators run out, so the
    correction changes nothing there. */
  lemma {:induction false} WeightsAgreeWithColon(line: string, firstColon: Option<nat>, pos: nat, maxN: nat,
                                                done: seq<real>, parseReal: string -> Option<real>)
    requires pos <= |line| && |done| <= maxN && firstColon.Some?
    ensures LineWeights(line, firstColon, pos, maxN, done, parseReal)
         == WeightsAsWritten(line, firstColon, pos, maxN, done, parseReal)
    decreases maxN - |done|
  {
    var next := FindFirst(line, {' ', '\n'}, pos);
    if NotBefore(firstColon, next) && |done| < maxN {
      var w := parseReal(WeightText(line, pos, next));
      if w.Some? {
        WeightsAgreeWithColon(line, firstColon, next.value + 1, maxN, done + [w.value], parseReal);
      }
    }
  }

  /** A support vector whose features are all zero is written as its weights alone. The
    source rejects such a line for any weight count; the model reads its weights. */
  lemma WrapAroundExample(parseReal: string -> Option<real>)
    requires parseReal("0.5").Some?
    ensures WeightsAsWritten("0.5", None, 0, 1, [], parseReal) == Failure(TooManyWeights(1))
    ensures LineWeights("0.5", None, 0, 1, [], parseReal) == Success(Weights([parseReal("0.5").value], 3))
  {
    assert FindFirst("0.5", {' ', '\n'}, 0) == None by {
      assert FindFirst("0.5", {' ', '\n'}, 3) == None;
    }
    assert WeightText("0.5", 0, None) == "0.5";
    var w := parseReal("0.5").value;
    assert [] + [w] == [w];
    assert LineWeights("0.5", None, 3, 1, [w], parseReal) == Success(Weights([w], 3));
  }

  /** The corrected weights loop of one line. */
  method ReadWeights(line: string, maxN: nat, parseReal: string -> Option<real>) returns (r: Result<Weights, ModelDataError>)
    ensures r == LineWeights(line, FindFirst(line, {':', '\n'}, 0), 0, maxN, [], parseReal)
  {
    var firstColon := FindFirst(line, {':', '\n'}, 0);
    var pos: nat := 0;
    var done: seq<real> := [];
    while true
      invariant pos <= |line| && |done| <= maxN
      invariant LineWeights(line, firstColon, pos, maxN, done, parseReal) == LineWeights(line, firstColon, 0, maxN, [], parseReal)
      decreases maxN - |done|
    {
      var next := FindFirst(line, {' ', '\n'}, pos);
      if pos == |line| || !NotBefore(firstColon, next) {
        return Success(Weights(done, pos));
      }
      if |done| >= maxN {
        return Failure(TooManyWeights(maxN));
      }
      var text := WeightText(line, pos, next);
      var w := parseReal(text);
      if w.None? {
        return Failure(BadWeight(text));
      }
      WeightsStep(line, firstColon, pos, maxN, done, parseReal);
      done := done + [w.value];
      pos := if next.Some? then next.value + 1 else |line|;
    }
  }

  /** One turn of the weights loop that reads a weight. */
  lemma WeightsStep(line: string, firstColon: Option<nat>, pos: nat, maxN: nat, done: seq<real>,
                    parseReal: string -> Option<real>)
    requires pos < |line| && |done| < maxN
    requires var next := FindFirst(line, {' ', '\n'}, pos);
      NotBefore(firstColon, next) && parseReal(WeightText(line, pos, next)).Some?
    ensures var next := FindFirst(line, {' ', '\n'}, pos);
      LineWeights(line, firstColon, pos, maxN, done, parseReal)
      == LineWeights(line, firstColon, if next.Some? then next.value + 1 else |line|, maxN,
                     done + [parseReal(WeightText(line, pos, next)).value], parseReal)
  {
  }

  // ---------------------------------------------------------------- one line

  /** One support vector: its weights and its row of feature values. */
  datatype DataLine = DataLine(weights: seq<real>, row: seq<real>)

  function FirstColon(line: string): Option<nat> {
    FindFirst(line, {':', '\n'}, 0)
  }

  /** The body of the per-line loop: the weights, their count checked against the limits,
    then the features from where the weights end. */
  function DataLineResult(line: string, numClasses: nat, numFeatures: nat, parseReal: string -> Option<real>)
    : (r: Result<DataLine, ModelDataError>)
    requires numClasses >= 2
    ensures r.Success? ==> MinWeights(numClasses) <= |r.value.weights| <= MaxWeights(numClasses)
    ensures r.Success? ==> |r.value.row| == numFeatures
    ensures r.Failure? ==> LineFailure(r.error)
  {
    var maxN := MaxWeights(numClasses);
    var w := LineWeights(line, FirstColon(line), 0, maxN, [], parseReal);
    if w.Failure? then Failure(w.error)
    else if |w.value.values| < MinWeights(numClasses) then Failure(TooFewWeights(MinWeights(numClasses), |w.value.values|))
    else
      var row := RowFrom(line, Some(w.value.cursor), numFeatures, Converters(LibraryIndex, parseReal));
      if row.Failure? then Failure(BadFeature(row.error)) else Success(DataLine(w.value.values, row.value))
  }

  /** With two classes a line of features without any weight is rejected. */
  lemma NoWeightsRejected(numFeatures: nat, parseReal: string -> Option<real>)
    ensures DataLineResult("1:0.5", 2, numFeatures, parseReal) == Failure(TooFewWeights(1, 0))
  {
    assert FirstColon("1:0.5") == Some(1);
    assert FindFirst("1:0.5", {' ', '\n'}, 0) == None by {
      assert FindFirst("1:0.5", {' ', '\n'}, 5) == None;
    }
  }

  /** The per-line loop body. */
  method ReadDataLine(line: string, numClasses: nat, numFeatures: nat, parseReal: string -> Option<real>)
    returns (r: Result<DataLine, ModelDataError>)
    requires numClasses >= 2
    ensures r == DataLineResult(line, numClasses, numFeatures, parseReal)
  {
    var w := ReadWeights(line, MaxWeights(numClasses), parseReal);
    if w.Failure? {
      return Failure(w.error);
    }
    if |w.value.values| < MinWeights(numClasses) {
      return Failure(TooFewWeights(MinWeights(numClasses), |w.value.values|));
    }
    var row := ReadFeatures(line, Some(w.value.cursor), numFeatures, Converters(LibraryIndex, parseReal));
    if row.Failure? {
      return Failure(BadFeature(row.error));
    }
    return Success(DataLine(w.value.values, row.value));
  }

  // ---------------------------------------------------------------- the whole data section

  /** How the weights of a model are organised. */
  datatype Classification = OneVsAll | OneVsOnePairs

  /** What `parse_libsvm_model_data` returns: the number of support vectors, the number of
    features, one row per support vector, the weights and how they are organised. */
  datatype ModelFileData = ModelFileData(numDataPoints: nat, numFeatures: nat, data: seq<seq<real>>,
                                         alpha: seq<seq<real>>, classification: Classification)

  function DataLineResults(lines: seq<string>, numClasses: nat, numFeatures: nat, parseReal: string -> Option<real>)
    : (rs: seq<Result<DataLine, ModelDataError>>)
    requires numClasses >= 2
    ensures |rs| == |lines| && forall i :: 0 <= i < |lines| ==> rs[i] == DataLineResult(lines[i], numClasses, numFeatures, parseReal)
  {
    seq(|lines|, i requires 0 <= i < |lines| => DataLineResult(lines[i], numClasses, numFeatures, parseReal))
  }

  /** Some line carries exactly `n` weights (the `is_oaa` and `is_oao` flags). */
  predicate HasWeightCount(ls: seq<DataLine>, n: nat) {
    exists i :: 0 <= i < |ls| && |ls[i].weights| == n
  }

  lemma HasWeightCountSnoc(ls: seq<DataLine>, l: DataLine, n: nat)
    ensures HasWeightCount(ls + [l], n) == (HasWeightCount(ls, n) || |l.weights| == n)
  {
    var next := ls + [l];
    assert next[|ls|] == l && forall j :: 0 <= j < |ls| ==> next[j] == ls[j];
  }

  /** The weight matrix the loop fills: row `a` holds the `a`-th weight of every support
    vector, and stays 0 where a line has fewer weights. */
  function WeightRows(ls: seq<DataLine>, n: nat): (alpha: seq<seq<real>>)
    ensures |alpha| == n && forall a :: 0 <= a < n ==> |alpha[a]| == |ls|
  {
    seq(n, a requires 0 <= a < n =>
      seq(|ls|, i requires 0 <= i < |ls| => if a < |ls[i].weights| then ls[i].weights[a] else 0.0))
  }

  function DataRows(ls: seq<DataLine>): (rows: seq<seq<real>>)
    ensures |rows| == |ls| && forall i :: 0 <= i < |ls| ==> rows[i] == ls[i].row
  {
    seq(|ls|, i requires 0 <= i < |ls| => ls[i].row)
  }

  /** Every line carries between the minimum and the maximum number of weights, as the
    per-line checks ensure. */
  predicate WeightCountsIn(ls: seq<DataLine>, numClasses: nat) {
    numClasses >= 2 && forall i :: 0 <= i < |ls| ==> MinWeights(numClasses) <= |ls[i].weights| <= MaxWeights(numClasses)
  }

  /** Every parsed line carries between the minimum and the maximum number of weights. */
  lemma LinesWeightCounts(lines: seq<string>, numClasses: nat, numFeatures: nat, parseReal: string -> Option<real>)
    requires numClasses >= 2
    requires Collect(DataLineResults(lines, numClasses, numFeatures, parseReal)).Success?
    ensures var ls := Collect(DataLineResults(lines, numClasses, numFeatures, parseReal)).value;
      && |ls| == |lines|
      && (forall i :: 0 <= i < |ls| ==> DataLineResult(lines[i], numClasses, numFeatures, parseReal) == Success(ls[i]))
      && WeightCountsIn(ls, numClasses)
  {
    CollectSucceeds(DataLineResults(lines, numClasses, numFeatures, parseReal));
  }

  /** With a one-vs-one line present there are more than two classes, and once the data
    lines cover the support vectors the remap reads only weights that were read. */
  lemma OaoShape(ls: seq<DataLine>, counts: seq<nat>)
    requires |counts| >= 2 && WeightCountsIn(ls, |counts|)
    requires HasWeightCount(ls, MaxWeights(|counts|) - 1)
    requires Start(counts, |counts|) <= |ls|
    ensures |counts| > 2
    ensures Shape(WeightRows(ls, MaxWeights(|counts|))[..MaxWeights(|counts|) - 1], counts)
  {
    var i :| 0 <= i < |ls| && |ls[i].weights| == MaxWeights(|counts|) - 1;
    assert MinWeights(|counts|) <= |ls[i].weights|;
    WeightRowsShape(ls, counts);
  }

  /** The weight rows of enough lines, without the last, fit the remap of more than two
    classes. */
  lemma WeightRowsShape(ls: seq<DataLine>, counts: seq<nat>)
    requires |counts| > 2 && Start(counts, |counts|) <= |ls|
    ensures Shape(WeightRows(ls, MaxWeights(|counts|))[..MaxWeights(|counts|) - 1], counts)
  {
    var alpha := WeightRows(ls, MaxWeights(|counts|))[..MaxWeights(|counts|) - 1];
    assert forall r :: 0 <= r < |alpha| ==> |alpha[r]| == |ls|;
  }

  /** The decision after the lines are read: the flags, and the weights as read or
    remapped per pair of classes. */
  function Classify(ls: seq<DataLine>, numFeatures: nat, counts: seq<nat>): Result<ModelFileData, ModelDataError>
    requires |counts| >= 2 && WeightCountsIn(ls, |counts|)
  {
    var k := |counts|;
    var maxN := MaxWeights(k);
    var isOaa := HasWeightCount(ls, maxN);
    var isOao := HasWeightCount(ls, maxN - 1);
    if isOaa && isOao then Failure(AmbiguousClassification)
    else if isOaa then Success(ModelFileData(|ls|, numFeatures, DataRows(ls), WeightRows(ls, maxN), OneVsAll))
    else if isOao then
      if Start(counts, k) > |ls| then Failure(TooFewSupportVectors(Start(counts, k), |ls|))
      else
        OaoShape(ls, counts);
        var alpha := WeightRows(ls, maxN)[..maxN - 1];
        Success(ModelFileData(|ls|, numFeatures, DataRows(ls), OaoRemap(alpha, counts), OneVsOnePairs))
    else Failure(NoClassification)
  }

  /** `parse_libsvm_model_data` on the reader's lines, the support vectors per class from
    the header and the number of header lines, with the library's index conversion and
    the given conversion of weights and values. */
  function ParseModel(lines: seq<string>, counts: seq<nat>, skipped: nat, parseReal: string -> Option<real>)
    : Result<ModelFileData, ModelDataError>
    requires |counts| >= 2 && skipped <= |lines|
  {
    var k := |counts|;
    var nf := NumFeatures(lines, skipped, LibraryIndex);
    if nf.Failure? then Failure(FeatureCount(nf.error))
    else if nf.value == 0 then Failure(NoSupportVectors)
    else
      var body := lines[skipped..];
      var parsed := Collect(DataLineResults(body, k, nf.value, parseReal));
      if parsed.Failure? then Failure(parsed.error)
      else
        LinesWeightCounts(body, k, nf.value, parseReal);
        Classify(parsed.value, nf.value, counts)
  }

  /** `parse_libsvm_model_data`: the feature count, each line in turn with the two flags,
    then the decision and, for one-vs-one, the remap. */
  method ParseModelData(lines: seq<string>, counts: seq<nat>, skipped: nat, parseReal: string -> Option<real>)
    returns (r: Result<ModelFileData, ModelDataError>)
    requires |counts| >= 2 && skipped <= |lines|
    ensures r == ParseModel(lines, counts, skipped, parseReal)
  {
    var k := |counts|;
    var numFeatures := ParseNumFeatures(lines, skipped, LibraryIndex);
    if numFeatures.Failure? {
      return Failure(FeatureCount(numFeatures.error));
    }
    if numFeatures.value == 0 {
      return Failure(NoSupportVectors);
    }
    var nf := numFeatures.value;
    var body := lines[skipped..];
    var maxN := MaxWeights(k);
    var parsed: seq<DataLine> := [];
    var isOaa, isOao := false, false;
    ghost var rs := DataLineResults(body, k, nf, parseReal);
    for i := 0 to |body|
      invariant Collect(rs[..i]) == Success(parsed)
      invariant isOaa == HasWeightCount(parsed, maxN)
      invariant isOao == HasWeightCount(parsed, maxN - 1)
    {
      var line := ReadDataLine(body[i], k, nf, parseReal);
      CollectSnoc(rs, i);
      if line.Failure? {
        CollectFailed(rs, i + 1);
        return Failure(line.error);
      }
      HasWeightCountSnoc(parsed, line.value, maxN);
      HasWeightCountSnoc(parsed, line.value, maxN - 1);
      if |line.value.weights| == maxN {
        isOaa := true;
      } else if |line.value.weights| == maxN - 1 {
        isOao := true;
      }
      parsed := parsed + [line.value];
    }
    assert rs[..|rs|] == rs;
    LinesWeightCounts(body, k, nf, parseReal);
    assert |parsed| == |body|;
    if isOaa && isOao {
      return Failure(AmbiguousClassification);
    }
    if isOaa {
      return Success(ModelFileData(|body|, nf, DataRows(parsed), WeightRows(parsed, maxN), OneVsAll));
    }
    if isOao {
      if Start(counts, k) > |body| {
        return Failure(TooFewSupportVectors(Start(counts, k), |body|));
      }
      OaoShape(parsed, counts);
      var alpha := WeightRows(parsed, maxN)[..maxN - 1];
      var remapped := RemapOao(alpha, counts);
      return Success(ModelFileData(|body|, nf, DataRows(parsed), remapped, OneVsOnePairs));
    }
    return Failure(NoClassification);
  }

  // ---------------------------------------------------------------- what a parse yields

  /** A one-vs-all decision: every line carries the maximum number of weights, and row
    `a` of the weights holds every support vector's `a`-th weight. */
  lemma ClassifyOneVsAll(ls: seq<DataLine>, numFeatures: nat, counts: seq<nat>)
    requires |counts| >= 2 && WeightCountsIn(ls, |counts|)
    requires Classify(ls, numFeatures, counts).Success? && Classify(ls, numFeatures, counts).value.classification == OneVsAll
    ensures var d := Classify(ls, numFeatures, counts).value;
      && d.numDataPoints == |ls| && |d.alpha| == MaxWeights(|counts|)
      && forall i :: 0 <= i < |ls| ==>
           && |ls[i].weights| == MaxWeights(|counts|) && d.data[i] == ls[i].row
           && forall a :: 0 <= a < MaxWeights(|counts|) ==> |d.alpha[a]| == |ls| && d.alpha[a][i] == ls[i].weights[a]
  {
    assert !HasWeightCount(ls, MaxWeights(|counts|) - 1);
  }

  /** A one-vs-one decision: more than two classes, one weight per other class on every
    line, and enough lines for the support vectors of the header, whose weights are
    remapped per pair of classes. */
  lemma ClassifyOneVsOne(ls: seq<DataLine>, numFeatures: nat, counts: seq<nat>)
    requires |counts| >= 2 && WeightCountsIn(ls, |counts|)
    requires Classify(ls, numFeatures, counts).Success? && Classify(ls, numFeatures, counts).value.classification == OneVsOnePairs
    ensures |counts| > 2 && Start(counts, |counts|) <= |ls|
    ensures forall i :: 0 <= i < |ls| ==> |ls[i].weights| == |counts| - 1
    ensures var d := Classify(ls, numFeatures, counts).value;
      && d.numDataPoints == |ls| && d.data == DataRows(ls)
      && d.alpha == OaoRemap(WeightRows(ls, |counts|)[..|counts| - 1], counts)
  {
    OaoShape(ls, counts);
    assert !HasWeightCount(ls, MaxWeights(|counts|));
  }

  /** The classifier of classes `x < y` holds for support vector `s` of either class, at
    the place `calculate_alpha_idx` finds it, the weight `s` carries for the other class. */
  lemma RemappedWeightAt(ls: seq<DataLine>, counts: seq<nat>, x: nat, y: nat, s: nat)
    requires |counts| > 2 && Start(counts, |counts|) <= |ls|
    requires forall i :: 0 <= i < |ls| ==> |ls[i].weights| == |counts| - 1
    requires x < y < |counts|
    requires Start(counts, x) <= s < Start(counts, x + 1) || Start(counts, y) <= s < Start(counts, y + 1)
    ensures s < |ls|
    ensures Shape(WeightRows(ls, |counts|)[..|counts| - 1], counts)
    ensures XvsYToIdx(x, y, |counts|) < NumClassifiers(|counts|)
    ensures var alpha := OaoRemap(WeightRows(ls, |counts|)[..|counts| - 1], counts);
      var r := AlphaIdx(x, y, ClassRanges(counts), s);
      && r.Success? && r.value < |alpha[XvsYToIdx(x, y, |counts|)]|
      && alpha[XvsYToIdx(x, y, |counts|)][r.value] == ls[s].weights[if s < Start(counts, x + 1) then y - 1 else x]
  {
    var k := |counts|;
    StartMonotone(counts, y + 1, k);
    WeightRowsShape(ls, counts);
    var alpha := WeightRows(ls, k)[..k - 1];
    RemapAgreesWithAlphaIdx(alpha, counts, x, y, s);
    var a := if s < Start(counts, x + 1) then y - 1 else x;
    assert alpha[a][s] == ls[s].weights[a];
  }

  /** The final "neither" error of the source cannot happen once a line was read. */
  lemma ClassifyNeverNeither(ls: seq<DataLine>, numFeatures: nat, counts: seq<nat>)
    requires |counts| >= 2 && WeightCountsIn(ls, |counts|) && |ls| > 0
    ensures Classify(ls, numFeatures, counts) != Failure(NoClassification)
  {
    assert |ls[0].weights| == MaxWeights(|counts|) || |ls[0].weights| == MaxWeights(|counts|) - 1;
  }

  /** With two classes every decision that succeeds is one-vs-all. */
  lemma ClassifyTwoClasses(ls: seq<DataLine>, numFeatures: nat, counts: seq<nat>)
    requires |counts| == 2 && WeightCountsIn(ls, |counts|)
    requires Classify(ls, numFeatures, counts).Success?
    ensures Classify(ls, numFeatures, counts).value.classification == OneVsAll
  {
  }

  /** A parse that succeeds has a positive feature count and reads every line after the
    header, at least one, and decides on what it read. */
  lemma ParseModelReads(lines: seq<string>, counts: seq<nat>, skipped: nat, parseReal: string -> Option<real>)
    requires |counts| >= 2 && skipped <= |lines|
    requires ParseModel(lines, counts, skipped, parseReal).Success?
    ensures NumFeatures(lines, skipped, LibraryIndex).Success?
    ensures var nf := NumFeatures(lines, skipped, LibraryIndex).value;
      var parsed := Collect(DataLineResults(lines[skipped..], |counts|, nf, parseReal));
      && nf > 0 && skipped < |lines|
      && parsed.Success? && |parsed.value| == |lines| - skipped
      && (forall i :: 0 <= i < |parsed.value| ==>
            DataLineResult(lines[skipped + i], |counts|, nf, parseReal) == Success(parsed.value[i]))
      && WeightCountsIn(parsed.value, |counts|)
      && ParseModel(lines, counts, skipped, parseReal) == Classify(parsed.value, nf, counts)
  {
    var nf := NumFeatures(lines, skipped, LibraryIndex).value;
    NumFeaturesPositive(lines, skipped, LibraryIndex);
    LinesWeightCounts(lines[skipped..], |counts|, nf, parseReal);
  }

  /** The steps of a parse: the feature count, then every line after the header, then
    the decision on what was read. */
  lemma ParseModelSteps(lines: seq<string>, counts: seq<nat>, skipped: nat, parseReal: string -> Option<real>)
    requires |counts| >= 2 && skipped <= |lines|
    ensures var nf := NumFeatures(lines, skipped, LibraryIndex);
      nf.Success? && nf.value > 0 ==>
        var parsed := Collect(DataLineResults(lines[skipped..], |counts|, nf.value, parseReal));
        && skipped < |lines|
        && (parsed.Success? ==> WeightCountsIn(parsed.value, |counts|) && |parsed.value| == |lines| - skipped
                                && ParseModel(lines, counts, skipped, parseReal) == Classify(parsed.value, nf.value, counts))
        && (parsed.Failure? ==> LineFailure(parsed.error) && ParseModel(lines, counts, skipped, parseReal) == Failure(parsed.error))
  {
    var nf := NumFeatures(lines, skipped, LibraryIndex);
    if nf.Success? && nf.value > 0 {
      NumFeaturesPositive(lines, skipped, LibraryIndex);
      var parsed := Collect(DataLineResults(lines[skipped..], |counts|, nf.value, parseReal));
      if parsed.Success? {
        LinesWeightCounts(lines[skipped..], |counts|, nf.value, parseReal);
      } else {
        CollectFails(DataLineResults(lines[skipped..], |counts|, nf.value, parseReal));
      }
    }
  }

  /** The model never ends in the source's "neither" error. */
  lemma NeverNoClassification(lines: seq<string>, counts: seq<nat>, skipped: nat, parseReal: string -> Option<real>)
    requires |counts| >= 2 && skipped <= |lines|
    ensures ParseModel(lines, counts, skipped, parseReal) != Failure(NoClassification)
  {
    ParseModelSteps(lines, counts, skipped, parseReal);
    var nf := NumFeatures(lines, skipped, LibraryIndex);
    if nf.Success? && nf.value > 0 {
      var parsed := Collect(DataLineResults(lines[skipped..], |counts|, nf.value, parseReal));
      if parsed.Success? {
        ClassifyNeverNeither(parsed.value, nf.value, counts);
      }
    }
  }

  /** A model of two classes is always read as one-vs-all. */
  lemma TwoClassesOneVsAll(lines: seq<string>, counts: seq<nat>, skipped: nat, parseReal: string -> Option<real>)
    requires |counts| == 2 && skipped <= |lines|
    requires ParseModel(lines, counts, skipped, parseReal).Success?
    ensures ParseModel(lines, counts, skipped, parseReal).value.classification == OneVsAll
  {
    ParseModelReads(lines, counts, skipped, parseReal);
    var nf := NumFeatures(lines, skipped, LibraryIndex).value;
    ClassifyTwoClasses(Collect(DataLineResults(lines[skipped..], 2, nf, parseReal)).value, nf, counts);
  }

  // ---------------------------------------------------------------- the checks as written

  /** The source's per-line checks and flags, for lines the loop has read: every count lies
    between the source's minimum and the maximum, and the file is one-vs-one when some
    line has one weight fewer than the maximum and none has the maximum. */
  predicate AcceptedAsOaoAsWritten(ls: seq<DataLine>, numClasses: nat)
    requires numClasses >= 2
  {
    && (forall i :: 0 <= i < |ls| ==> MinWeightsAsWritten(numClasses) <= |ls[i].weights| <= MaxWeights(numClasses))
    && HasWeightCount(ls, MaxWeights(numClasses) - 1) && !HasWeightCount(ls, MaxWeights(numClasses))
  }

  /** Two classes, support vectors without weights: the source accepts them as one-vs-one,
    drops the only weight row and then the remap reads row 0, which is gone. */
  lemma TwoClassesNoWeightsAsWritten(ls: seq<DataLine>, counts: seq<nat>)
    requires |counts| == 2 && |ls| > 0 && forall i :: 0 <= i < |ls| ==> ls[i].weights == []
    ensures AcceptedAsOaoAsWritten(ls, 2)
    ensures |WeightRows(ls, MaxWeights(2))[..MaxWeights(2) - 1]| == 0 < |counts| - 1
    ensures !Shape(WeightRows(ls, MaxWeights(2))[..MaxWeights(2) - 1], counts)
  {
    assert |ls[0].weights| == 0;
  }

  /** More support vectors in the header than lines in the data section: the source
    accepts the lines as one-vs-one, and the remap reads weights past the last line. */
  lemma ShortDataAsWritten(ls: seq<DataLine>, counts: seq<nat>)
    requires |counts| > 2 && |ls| > 0 && Start(counts, |counts|) > |ls|
    requires forall i :: 0 <= i < |ls| ==> |ls[i].weights| == |counts| - 1
    ensures AcceptedAsOaoAsWritten(ls, |counts|)
    ensures !Shape(WeightRows(ls, MaxWeights(|counts|))[..MaxWeights(|counts|) - 1], counts)
  {
    assert |ls[0].weights| == |counts| - 1;
    var alpha := WeightRows(ls, MaxWeights(|counts|))[..MaxWeights(|counts|) - 1];
    assert |alpha[0]| == |ls|;
  }

  /** The model instead rejects such lines. */
  lemma ShortDataRejected(ls: seq<DataLine>, numFeatures: nat, counts: seq<nat>)
    requires |counts| > 2 && |ls| > 0 && Start(counts, |counts|) > |ls|
    requires forall i :: 0 <= i < |ls| ==> |ls[i].weights| == |counts| - 1
    ensures WeightCountsIn(ls, |counts|)
    ensures Classify(ls, numFeatures, counts) == Failure(TooFewSupportVectors(Start(counts, |counts|), |ls|))
  {
    assert |ls[0].weights| == |counts| - 1;
  }

  // ---------------------------------------------------------------- an index past the count

  /** With two classes the weight of `1 1:2 5 3:4` is its first token, and the features
    start right after the space behind it. */
  lemma UnorderedTailWeights(line: string, parseReal: string -> Option<real>)
    requires line == UNORDERED_TAIL && parseReal("1").Some?
    ensures LineWeights(line, FirstColon(line), 0, MaxWeights(2), [], parseReal)
      == Success(Weights([parseReal("1").value], 2))
  {
    assert FirstColon(line) == Some(3) by {
      assert FindFirst(line, {':', '\n'}, 3) == Some(3);
      assert FindFirst(line, {':', '\n'}, 1) == Some(3);
    }
    assert FindFirst(line, {' ', '\n'}, 0) == Some(1) by {
      assert FindFirst(line, {' ', '\n'}, 1) == Some(1);
    }
    assert WeightText(line, 0, Some(1)) == line[0..1] == "1";
    assert FindFirst(line, {' ', '\n'}, 2) == Some(5) by {
      assert FindFirst(line, {' ', '\n'}, 5) == Some(5);
      assert FindFirst(line, {' ', '\n'}, 4) == Some(5);
      assert FindFirst(line, {' ', '\n'}, 3) == Some(5);
    }
    var w := parseReal("1").value;
    assert [] + [w] == [w];
  }

  /** The first feature turn from that position reads index 1 and the value "2". */
  lemma UnorderedTailFeatureStart(line: string, limit: nat, conv: Converters)
    requires line == UNORDERED_TAIL && conv.index == LibraryIndex && 1 <= limit && conv.value("2").Some?
    ensures EntryStep(line, 2, 0, limit, conv) == Feature((0, conv.value("2").value), Some(5))
  {
    UnorderedTailFirstColon(line);
    UnorderedTailFirstValue(line);
    EntryStepReads(line, 2, 0, limit, conv, 3, 1, 5);
  }

  /** From the feature start the first ':' is at 3, behind the index text "1". */
  lemma UnorderedTailFirstColon(line: string)
    requires line == UNORDERED_TAIL
    ensures FindFirst(line, {':'}, 2) == Some(3) && LibraryIndex(line[2..3]) == Success(1)
  {
    assert FindFirst(line, {':'}, 3) == Some(3);
    assert line[2..3] == Spaces(0) + Render(1) + "";
    IndexRoundTrip(0, 1, "");
  }

  /** The feature loop of `parse_libsvm_model_data` as written has no bound check either
    (`ULONG_MAX` never fires): on the two-class line `1 1:2 5 3:4`, which declares three
    features (`LibsvmParsing.UnorderedTailCount`), the second value goes to column 4. */
  lemma UnorderedTailAsWritten(line: string, parseReal: string -> Option<real>)
    requires line == UNORDERED_TAIL && parseReal("2").Some? && parseReal("4").Some?
    ensures Entries(line, 2, 0, ULONG_MAX, Converters(LibraryIndex, parseReal))
      == Success([(0, parseReal("2").value), (4, parseReal("4").value)])
  {
    var conv := Converters(LibraryIndex, parseReal);
    var first, second := (0, parseReal("2").value), (4, parseReal("4").value);
    UnorderedTailFeatureStart(line, ULONG_MAX, conv);
    UnorderedTailLast(conv);
    EntriesStep(line, 2, 0, ULONG_MAX, conv);
    EntriesStep(line, 5, 1, ULONG_MAX, conv);
    assert [first] + [second] == [first, second];
  }

  /** The model checks each index against the feature count, so it rejects that line. */
  lemma UnorderedTailRejected(line: string, parseReal: string -> Option<real>)
    requires line == UNORDERED_TAIL && parseReal("1").Some? && parseReal("2").Some?
    ensures DataLineResult(line, 2, 3, parseReal) == Failure(BadFeature(IndexAboveFeatureCount(5, 3)))
  {
    var conv := Converters(LibraryIndex, parseReal);
    UnorderedTailWeights(line, parseReal);
    UnorderedTailFeatureStart(line, 3, conv);
    UnorderedTailIndex();
    assert EntryStep(line, 5, 1, 3, conv) == Stop(IndexAboveFeatureCount(5, 3));
    EntriesStep(line, 2, 0, 3, conv);
    EntriesStep(line, 5, 1, 3, conv);
  }
}
