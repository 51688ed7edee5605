/** The older LIBSVM reader of parameter.cpp (`detail::parse_libsvm_file`), shared by the
  data file and the support vectors of a model file, and the label mapping of
  `parameter::parse_libsvm`.

  Unlike the newer reader, this one takes feature indices as zero-based positions, grows
  each row to the largest index it sees, marks an unlabelled line by writing the largest
  real into `values[0]`, and pads every row to the longest one. */
module LibsvmFile {
  import opened Wrappers
  import opened StringUtility
  import LibsvmParsing

  /** The exceptions the older parsers throw (`invalid_file_format_exception` and the
    conversion errors of `convert_to`), in the model's terms. */
  datatype FormatError =
    | BadIndex(conversion: ConversionError)      // an index that is not an `unsigned long`
    | BadInteger(conversion: ConversionError)    // any other integer that does not convert
    | BadReal(text: string)                      // a real number that does not convert
    | NoFeatures                                 // "Can't parse file!": every row is empty
    // ARFF files
    | NotNumeric(line: string)                   // an attribute that is not NUMERIC
    | ClassNotLast                               // an attribute after the CLASS attribute
    | NoAttributes                               // no @ATTRIBUTE line before @DATA
    | NoDataSection                              // no @DATA line
    | AtInData(line: string)                     // a line starting with '@' after @DATA
    | MissingClosingBrace                        // a sparse line not ending with '}'
    | MissingClass                               // a sparse line without the class
    | SparseIndexOutOfRange(index: nat, end: nat)  // a sparse index past the attributes
    | TooFewValues(found: nat, expected: nat)    // a dense line with too few commas
    // model files
    | BadSvmType(value: string)                  // svm_type other than c_svc
    | BadKernelType(value: string)               // kernel_type that does not convert
    | NotTwoClasses(nrClass: nat)                // nr_class other than 2
    | ZeroTotalSv                                // total_sv of 0
    | BadLabels(line: string)                    // label other than two values, each 1 or -1
    | TooManyNrSv(line: string)                  // nr_sv with more than two numbers
    | NrSvMismatch(first: nat, second: nat, total: nat)  // the counts do not add up
    | UnrecognizedEntry(line: string)            // a header line that is no entry
    | MissingTotalSv | MissingLabels | MissingNrSv | MissingRho | MissingSv
    | TooFewSupportVectors(lines: nat, numSv: nat)  // fewer lines after SV than total_sv

  // ---------------------------------------------------------------- one line

  /** One `index:value` pair as the line gives it. */
  datatype Feature = Feature(index: nat, value: real)

  /** `first_colon > pos`, where npos is larger than every index: the line has a space,
    and its first ':' (if it has one) comes after that space. */
  predicate Labelled(line: string) {
    var space := LibsvmParsing.FindFirst(line, {' '}, 0);
    var colon := LibsvmParsing.FindFirst(line, {':'}, 0);
    space.Some? && (colon.None? || colon.value > space.value)
  }

  /** The text of a value: from `start` up to the next space, or to the end of the line. */
  function ValueText(line: string, start: nat, next: Option<nat>): string
    requires start <= |line| && (next.Some? ==> start <= next.value <= |line|)
  {
    line[start..if next.Some? then next.value else |line|]
  }

  function Prefixed(done: seq<Feature>, r: Result<seq<Feature>, FormatError>): Result<seq<Feature>, FormatError> {
    if r.Failure? then r else Success(done + r.value)
  }

  /** What the feature loop finds at the cursor `pos`: no further ':' (`None`), the next
    pair and the next cursor (the following space, or npos), or a text that does not
    convert. The index is the text from the cursor to the ':', the value the text from
    there to the next space. */
  function PairAt(line: string, pos: nat, parseReal: string -> Option<real>)
    : (r: Result<Option<(Feature, Option<nat>)>, FormatError>)
    requires pos <= |line|
    ensures r.Success? && r.value.Some? && r.value.value.1.Some? ==> pos < r.value.value.1.value <= |line|
  {
    var colon := LibsvmParsing.FindFirst(line, {':'}, pos);
    if colon.None? then Success(None)
    else
      var index := LibsvmParsing.LibraryIndex(line[pos..colon.value]);
      if index.Failure? then Failure(BadIndex(index.error))
      else
        var next := LibsvmParsing.FindFirst(line, {' '}, colon.value + 1);
        var text := ValueText(line, colon.value + 1, next);
        var value := parseReal(text);
        if value.None? then Failure(BadReal(text))
        else Success(Some((Feature(index.value, value.value), next)))
  }

  /** The pairs the feature loop reads from the cursor `pos` on (`None` is npos). */
  function PairsFrom(line: string, pos: Option<nat>, parseReal: string -> Option<real>)
    : (r: Result<seq<Feature>, FormatError>)
    requires pos.Some? ==> pos.value <= |line|
    decreases if pos.Some? then |line| + 1 - pos.value else 0
  {
    if pos.None? then Success([])
    else
      var step := PairAt(line, pos.value, parseReal);
      if step.Failure? then Failure(step.error)
      else if step.value.None? then Success([])
      else Prefixed([step.value.value.0], PairsFrom(line, step.value.value.1, parseReal))
  }

  /** Where the feature loop starts: at the first space of a labelled line, at the start
    of any other. */
  function FeatureStart(line: string): (pos: Option<nat>)
    ensures pos.Some? && pos.value <= |line|
  {
    if Labelled(line) then LibsvmParsing.FindFirst(line, {' '}, 0) else Some(0)
  }

  /** What one line holds: its label (`None` when it is unlabelled) and its pairs. */
  datatype LineRead = LineRead(classLabel: Option<real>, pairs: seq<Feature>)

  function ReadLine(line: string, parseReal: string -> Option<real>): (r: Result<LineRead, FormatError>)
    ensures r.Success? ==> (r.value.classLabel.Some? <==> Labelled(line))
  {
    var given: Result<Option<real>, FormatError> :=
      if !Labelled(line) then Success(None)
      else
        var text := line[..LibsvmParsing.FindFirst(line, {' '}, 0).value];
        if parseReal(text).None? then Failure(BadReal(text)) else Success(Some(parseReal(text).value));
    if given.Failure? then Failure(given.error)
    else
      var pairs := PairsFrom(line, FeatureStart(line), parseReal);
      if pairs.Failure? then Failure(pairs.error) else Success(LineRead(given.value, pairs.value))
  }

  // ---------------------------------------------------------------- rows

  function Max(a: nat, b: nat): nat {
    if a < b then b else a
  }

  /** `resize(n)` of a row: cut to `n` values, or padded with zeros to `n`. */
  function Resize(row: seq<real>, n: nat): (r: seq<real>)
    ensures |r| == n
    ensures forall k :: 0 <= k < n ==> r[k] == if k < |row| then row[k] else 0.0
  {
    if |row| >= n then row[..n] else row + LibsvmParsing.Zeros(n - |row|)
  }

  /** The row length after the pairs: at least `width`, and one past every index. */
  function Width(width: nat, pairs: seq<Feature>): nat
    decreases |pairs|
  {
    if pairs == [] then width else Max(Width(width, pairs[..|pairs| - 1]), pairs[|pairs| - 1].index + 1)
  }

  /** The row after writing the pairs in order into `row`, growing it to `index + 1`
    whenever an index is past its end. */
  function Place(row: seq<real>, pairs: seq<Feature>): (r: seq<real>)
    ensures |r| == Width(|row|, pairs)
    decreases |pairs|
  {
    if pairs == [] then row
    else
      var last := pairs[|pairs| - 1];
      var init := Place(row, pairs[..|pairs| - 1]);
      Resize(init, Max(|init|, last.index + 1))[last.index := last.value]
  }

  /** The value the last pair with index `k` gives, 0 when no pair has index `k`. */
  function LastValue(pairs: seq<Feature>, k: nat): real
    decreases |pairs|
  {
    if pairs == [] then 0.0
    else if pairs[|pairs| - 1].index == k then pairs[|pairs| - 1].value
    else LastValue(pairs[..|pairs| - 1], k)
  }

  /** A row that holds the pairs: long enough for every index, and each cell holding the
    value the last pair for it gives, 0 for a cell no pair names. */
  predicate Holds(row: seq<real>, pairs: seq<Feature>) {
    && Width(0, pairs) <= |row|
    && forall k :: 0 <= k < |row| ==> row[k] == LastValue(pairs, k)
  }

  /** The width grows from `width` as it would from 0. */
  lemma {:induction false} WidthFrom(width: nat, pairs: seq<Feature>)
    ensures Width(width, pairs) == Max(width, Width(0, pairs))
    decreases |pairs|
  {
    if pairs != [] {
      WidthFrom(width, pairs[..|pairs| - 1]);
    }
  }

  /** No pair names an index at or past the width. */
  lemma {:induction false} PastWidth(pairs: seq<Feature>, k: nat)
    requires Width(0, pairs) <= k
    ensures LastValue(pairs, k) == 0.0
    decreases |pairs|
  {
    if pairs != [] {
      PastWidth(pairs[..|pairs| - 1], k);
    }
  }

  /** Writing the pairs into a row of zeros: each index `k` gets the last value given for
    it and every other cell stays 0, whatever the starting width. */
  lemma {:induction false} PlaceHolds(width: nat, pairs: seq<Feature>)
    ensures Holds(Place(LibsvmParsing.Zeros(width), pairs), pairs)
    decreases |pairs|
  {
    WidthFrom(width, pairs);
    if pairs != [] {
      var init, last := pairs[..|pairs| - 1], pairs[|pairs| - 1];
      PlaceHolds(width, init);
      WidthFrom(width, init);
      var p := Place(LibsvmParsing.Zeros(width), init);
      var g := Resize(p, Max(|p|, last.index + 1));
      forall k | 0 <= k < |g|
        ensures g[last.index := last.value][k] == LastValue(pairs, k)
      {
        if k != last.index && k >= |p| {
          PastWidth(init, k);
        }
      }
    }
  }

  /** Padding keeps a row holding its pairs. */
  lemma ResizeHolds(row: seq<real>, pairs: seq<Feature>, n: nat)
    requires Holds(row, pairs) && |row| <= n
    ensures Holds(Resize(row, n), pairs)
  {
    forall k | |row| <= k < n
      ensures LastValue(pairs, k) == 0.0
    {
      PastWidth(pairs, k);
    }
  }

  /** The pairs read after `done`, as the loop accumulates them. */
  lemma PrefixedSnoc(done: seq<Feature>, f: Feature, r: Result<seq<Feature>, FormatError>)
    ensures Prefixed(done, Prefixed([f], r)) == Prefixed(done + [f], r)
  {
    if r.Success? {
      assert done + ([f] + r.value) == (done + [f]) + r.value;
    }
  }

  /** One more pair written into the row, as the loop does it. */
  lemma PlaceSnoc(width: nat, done: seq<Feature>, f: Feature)
    ensures var p := Place(LibsvmParsing.Zeros(width), done);
      Place(LibsvmParsing.Zeros(width), done + [f]) == Resize(p, Max(|p|, f.index + 1))[f.index := f.value]
  {
    assert (done + [f])[..|done|] == done;
  }

  /** One pair written into the row: the row grows to `index + 1` first when the index is
    past its end. */
  method WritePair(row: seq<real>, f: Feature) returns (r: seq<real>)
    ensures r == Resize(row, Max(|row|, f.index + 1))[f.index := f.value]
  {
    r := row;
    if f.index >= |r| {
      r := Resize(r, f.index + 1);
    } else {
      assert Resize(r, |r|) == r;
    }
    r := r[f.index := f.value];
  }

  /** The feature loop of one line: reads pairs from `start` and writes each into `vline`,
    which starts as `width` zeros and grows to `index + 1` when an index is past its end. */
  method ReadFeatures(line: string, start: Option<nat>, width: nat, parseReal: string -> Option<real>)
    returns (r: Result<seq<real>, FormatError>)
    requires start.Some? ==> start.value <= |line|
    ensures PairsFrom(line, start, parseReal).Failure? ==> r == Failure(PairsFrom(line, start, parseReal).error)
    ensures PairsFrom(line, start, parseReal).Success? ==>
      r == Success(Place(LibsvmParsing.Zeros(width), PairsFrom(line, start, parseReal).value))
  {
    var vline := LibsvmParsing.Zeros(width);
    var pos := start;
    ghost var done: seq<Feature> := [];
    assert Prefixed(done, PairsFrom(line, pos, parseReal)) == PairsFrom(line, start, parseReal) by {
      if PairsFrom(line, pos, parseReal).Success? {
        assert done + PairsFrom(line, pos, parseReal).value == PairsFrom(line, pos, parseReal).value;
      }
    }
    while pos.Some?
      invariant pos.Some? ==> pos.value <= |line|
      invariant PairsFrom(line, start, parseReal) == Prefixed(done, PairsFrom(line, pos, parseReal))
      invariant vline == Place(LibsvmParsing.Zeros(width), done)
      decreases if pos.Some? then |line| + 1 - pos.value else 0
    {
      var step := PairAt(line, pos.value, parseReal);
      if step.Failure? {
        return Failure(step.error);
      }
      if step.value.None? {
        break;
      }
      var (f, next) := step.value.value;
      vline := WritePair(vline, f);
      PrefixedSnoc(done, f, PairsFrom(line, next, parseReal));
      PlaceSnoc(width, done, f);
      done := done + [f];
      pos := next;
    }
    assert done + [] == done;
    return Success(vline);
  }

  // ---------------------------------------------------------------- the whole file

  /** What the loop over the lines has produced: the running maximum row length, the rows
    and the values. */
  datatype FileState = FileState(maxSize: nat, data: seq<seq<real>>, values: seq<real>)

  /** One line `i`: a labelled line writes its label to `values[i]`, an unlabelled one the
    largest real `realMax` to `values[0]`; the row starts as `maxSize` zeros. */
  function LineStep(line: string, i: nat, s: FileState, parseReal: string -> Option<real>, realMax: real)
    : (r: Result<FileState, FormatError>)
    requires i < |s.data| == |s.values|
    ensures r.Success? ==> |r.value.data| == |s.data| && |r.value.values| == |s.values|
  {
    var read := ReadLine(line, parseReal);
    if read.Failure? then Failure(read.error) else Success(Advance(s, i, read.value, realMax))
  }

  /** The state after line `i` has read as `read`: its row is its pairs placed into
    `maxSize` zeros. */
  function Advance(s: FileState, i: nat, read: LineRead, realMax: real): (r: FileState)
    requires i < |s.data| == |s.values|
    ensures |r.data| == |s.data| && |r.values| == |s.values|
  {
    var row := Place(LibsvmParsing.Zeros(s.maxSize), read.pairs);
    var values := if read.classLabel.Some? then s.values[i := read.classLabel.value] else s.values[0 := realMax];
    FileState(Max(s.maxSize, |row|), s.data[i := row], values)
  }

  /** The loop over lines `i` onwards; the first line that fails decides the error. */
  function ReadFrom(lines: seq<string>, i: nat, s: FileState, parseReal: string -> Option<real>, realMax: real)
    : (r: Result<FileState, FormatError>)
    requires i <= |lines| == |s.data| == |s.values|
    ensures r.Success? ==> |r.value.data| == |lines| == |r.value.values|
    decreases |lines| - i, 1
  {
    if i == |lines| then Success(s)
    else ReadAfter(lines, i, LineStep(lines[i], i, s, parseReal, realMax), parseReal, realMax)
  }

  /** The loop once line `i` has been read into `next`. */
  function ReadAfter(lines: seq<string>, i: nat, next: Result<FileState, FormatError>,
                     parseReal: string -> Option<real>, realMax: real)
    : (r: Result<FileState, FormatError>)
    requires i < |lines|
    requires next.Success? ==> |lines| == |next.value.data| == |next.value.values|
    ensures r.Success? ==> |r.value.data| == |lines| == |r.value.values|
    decreases |lines| - i, 0
  {
    if next.Failure? then next else ReadFrom(lines, i + 1, next.value, parseReal, realMax)
  }

  /** `parse_libsvm_file(f, start, data, values)` on the lines `f.line(start + i)`: the
    rows, each resized to the longest, and the values; an error when every row is empty. */
  function ReadFile(lines: seq<string>, data: seq<seq<real>>, values: seq<real>,
                    parseReal: string -> Option<real>, realMax: real): Result<(seq<seq<real>>, seq<real>), FormatError>
    requires |lines| == |data| == |values|
  {
    var e := ReadFrom(lines, 0, FileState(0, data, values), parseReal, realMax);
    if e.Failure? then Failure(e.error)
    else if e.value.maxSize == 0 then Failure(NoFeatures)
    else Success((seq(|lines|, i requires 0 <= i < |lines| => Resize(e.value.data[i], e.value.maxSize)), e.value.values))
  }

  /** One pass of the line loop, writing `values` and `data` in place. */
  method ReadLineInto(line: string, i: nat, maxSize: nat, data: array<seq<real>>, values: array<real>,
                      parseReal: string -> Option<real>, realMax: real) returns (r: Result<nat, FormatError>)
    requires i < data.Length == values.Length
    modifies data, values
    ensures var s := LineStep(line, i, FileState(maxSize, old(data[..]), old(values[..])), parseReal, realMax);
      && (s.Failure? ==> r == Failure(s.error))
      && (s.Success? ==> r == Success(s.value.maxSize) && data[..] == s.value.data && values[..] == s.value.values)
  {
    var space := LibsvmParsing.FindFirst(line, {' '}, 0);
    var colon := LibsvmParsing.FindFirst(line, {':'}, 0);
    var pos: Option<nat>;
    if space.Some? && (colon.None? || colon.value > space.value) {
      var text := line[..space.value];
      var given := parseReal(text);
      if given.None? {
        return Failure(BadReal(text));
      }
      values[i] := given.value;
      pos := space;
    } else {
      values[0] := realMax;
      pos := Some(0);
    }
    var row := ReadFeatures(line, pos, maxSize, parseReal);
    if row.Failure? {
      return Failure(row.error);
    }
    data[i] := row.value;
    return Success(Max(maxSize, |row.value|));
  }

  /** The line loop of `parse_libsvm_file`; returns the longest row length. */
  method ReadLines(lines: seq<string>, data: array<seq<real>>, values: array<real>,
                   parseReal: string -> Option<real>, realMax: real) returns (r: Result<nat, FormatError>)
    requires data.Length == values.Length == |lines|
    modifies data, values
    ensures var e := ReadFrom(lines, 0, FileState(0, old(data[..]), old(values[..])), parseReal, realMax);
      && (e.Failure? ==> r == Failure(e.error))
      && (e.Success? ==> r == Success(e.value.maxSize) && data[..] == e.value.data && values[..] == e.value.values)
  {
    ghost var start := FileState(0, data[..], values[..]);
    var maxSize := 0;
    for i := 0 to |lines|
      invariant ReadFrom(lines, 0, start, parseReal, realMax)
             == ReadFrom(lines, i, FileState(maxSize, data[..], values[..]), parseReal, realMax)
    {
      var step := ReadLineInto(lines[i], i, maxSize, data, values, parseReal, realMax);
      if step.Failure? {
        return Failure(step.error);
      }
      maxSize := step.value;
    }
    return Success(maxSize);
  }

  /** Every row resized to `n`. */
  method ResizeRows(data: array<seq<real>>, n: nat)
    modifies data
    ensures data[..] == seq(data.Length, i requires 0 <= i < data.Length => Resize(old(data[i]), n))
  {
    for i := 0 to data.Length
      invariant forall j :: 0 <= j < i ==> data[j] == Resize(old(data[j]), n)
      invariant forall j :: i <= j < data.Length ==> data[j] == old(data[j])
    {
      data[i] := Resize(data[i], n);
    }
  }

  /** `detail::parse_libsvm_file`: the line loop, then every row resized to the longest;
    no feature at all is an error. */
  method ParseLibsvmFile(lines: seq<string>, data: array<seq<real>>, values: array<real>,
                         parseReal: string -> Option<real>, realMax: real) returns (outcome: Outcome<FormatError>)
    requires data.Length == values.Length == |lines|
    modifies data, values
    ensures var e := ReadFile(lines, old(data[..]), old(values[..]), parseReal, realMax);
      && (e.Failure? ==> outcome == Fail(e.error))
      && (e.Success? ==> outcome == Pass && data[..] == e.value.0 && values[..] == e.value.1)
  {
    var maxSize := ReadLines(lines, data, values, parseReal, realMax);
    if maxSize.Failure? {
      return Fail(maxSize.error);
    }
    ResizeRows(data, maxSize.value);
    if maxSize.value == 0 {
      return Fail(NoFeatures);
    }
    return Pass;
  }

  // ---------------------------------------------------------------- what the file yields

  /** A line that reads as `read` moves the loop on to the next line with `Advance`. */
  lemma ReadFromRead(lines: seq<string>, i: nat, s: FileState, parseReal: string -> Option<real>, realMax: real,
                     read: LineRead)
    requires i < |lines| == |s.data| == |s.values|
    requires ReadLine(lines[i], parseReal) == Success(read)
    ensures ReadFrom(lines, i, s, parseReal, realMax) == ReadFrom(lines, i + 1, Advance(s, i, read, realMax), parseReal, realMax)
  {
  }

  /** A loop that succeeds from line `i` read every line from `i` on. */
  lemma {:induction false} ReadFromReads(lines: seq<string>, i: nat, s: FileState,
                                         parseReal: string -> Option<real>, realMax: real)
    requires i <= |lines| == |s.data| == |s.values|
    requires ReadFrom(lines, i, s, parseReal, realMax).Success?
    ensures forall j :: i <= j < |lines| ==> ReadLine(lines[j], parseReal).Success?
    decreases |lines| - i
  {
    if i < |lines| {
      var step := LineStep(lines[i], i, s, parseReal, realMax);
      assert step.Success?;
      ReadFromReads(lines, i + 1, step.value, parseReal, realMax);
      forall j | i <= j < |lines|
        ensures ReadLine(lines[j], parseReal).Success?
      {
        if j == i {
          assert step.Success?;
        }
      }
    }
  }

  /** The loop from line `i` on, once every line has been read: `Advance` line after line. */
  function Replay(parsed: seq<LineRead>, i: nat, s: FileState, realMax: real): (r: FileState)
    requires i <= |parsed| == |s.data| == |s.values|
    ensures |r.data| == |parsed| == |r.values|
    decreases |parsed| - i
  {
    if i == |parsed| then s else Replay(parsed, i + 1, Advance(s, i, parsed[i], realMax), realMax)
  }

  /** When every line from `i` on reads, the loop is the replay of what they read. */
  lemma {:induction false} ReadFromReplay(lines: seq<string>, i: nat, s: FileState,
                                          parseReal: string -> Option<real>, realMax: real, parsed: seq<LineRead>)
    requires i <= |lines| == |s.data| == |s.values| == |parsed|
    requires forall j :: i <= j < |lines| ==> ReadLine(lines[j], parseReal) == Success(parsed[j])
    ensures ReadFrom(lines, i, s, parseReal, realMax) == Success(Replay(parsed, i, s, realMax))
    decreases |lines| - i
  {
    if i < |lines| {
      ReadFromRead(lines, i, s, parseReal, realMax, parsed[i]);
      ReadFromReplay(lines, i + 1, Advance(s, i, parsed[i], realMax), parseReal, realMax, parsed);
    }
  }

  /** Each row from line `i` on holds its line's pairs and fits the final length, which is
    the one the loop started with or some row's own width; the rows before `i` stay as
    they were. */
  lemma ReplayRows(parsed: seq<LineRead>, i: nat, s: FileState, realMax: real)
    requires i <= |parsed| == |s.data| == |s.values|
    ensures var e := Replay(parsed, i, s, realMax);
      && e.maxSize >= s.maxSize
      && (e.maxSize == s.maxSize || exists j :: i <= j < |parsed| && e.maxSize == Width(0, parsed[j].pairs))
      && (forall j :: 0 <= j < i ==> e.data[j] == s.data[j])
      && (forall j :: i <= j < |parsed| ==> Holds(e.data[j], parsed[j].pairs) && |e.data[j]| <= e.maxSize)
  {
    ReplayMaxSize(parsed, i, s, realMax);
    ReplayKeeps(parsed, i, s, realMax);
    ReplayHolds(parsed, i, s, realMax);
  }

  /** The final length is the starting one or some row's own width. */
  lemma {:induction false} ReplayMaxSize(parsed: seq<LineRead>, i: nat, s: FileState, realMax: real)
    requires i <= |parsed| == |s.data| == |s.values|
    ensures var e := Replay(parsed, i, s, realMax);
      && e.maxSize >= s.maxSize
      && (e.maxSize == s.maxSize || exists j :: i <= j < |parsed| && e.maxSize == Width(0, parsed[j].pairs))
    decreases |parsed| - i
  {
    if i < |parsed| {
      var read := parsed[i];
      var next := Advance(s, i, read, realMax);
      WidthFrom(s.maxSize, read.pairs);
      ReplayMaxSize(parsed, i + 1, next, realMax);
      var e := Replay(parsed, i + 1, next, realMax);
      if e.maxSize != s.maxSize && e.maxSize == next.maxSize {
        assert e.maxSize == Width(0, read.pairs);
      }
    }
  }

  /** The rows before `i` stay as they were. */
  lemma {:induction false} ReplayKeeps(parsed: seq<LineRead>, i: nat, s: FileState, realMax: real)
    requires i <= |parsed| == |s.data| == |s.values|
    ensures forall j :: 0 <= j < i ==> Replay(parsed, i, s, realMax).data[j] == s.data[j]
    decreases |parsed| - i
  {
    if i < |parsed| {
      ReplayKeeps(parsed, i + 1, Advance(s, i, parsed[i], realMax), realMax);
    }
  }

  /** The rows from `i` on hold their pairs within the final length. */
  lemma {:induction false} ReplayHolds(parsed: seq<LineRead>, i: nat, s: FileState, realMax: real)
    requires i <= |parsed| == |s.data| == |s.values|
    ensures var e := Replay(parsed, i, s, realMax);
      forall j :: i <= j < |parsed| ==> Holds(e.data[j], parsed[j].pairs) && |e.data[j]| <= e.maxSize
    decreases |parsed| - i
  {
    if i < |parsed| {
      var read := parsed[i];
      var next := Advance(s, i, read, realMax);
      var row := Place(LibsvmParsing.Zeros(s.maxSize), read.pairs);
      PlaceHolds(s.maxSize, read.pairs);
      ReplayHolds(parsed, i + 1, next, realMax);
      ReplayKeeps(parsed, i + 1, next, realMax);
      ReplayMaxSize(parsed, i + 1, next, realMax);
      var e := Replay(parsed, i + 1, next, realMax);
      assert e.data[i] == next.data[i] == row;
      assert |row| <= next.maxSize <= e.maxSize;
    }
  }

  /** A labelled line from `i` on writes its label to its own slot; every other slot but
    the first keeps its value. */
  lemma {:induction false} ReplayValues(parsed: seq<LineRead>, i: nat, s: FileState, realMax: real)
    requires i <= |parsed| == |s.data| == |s.values|
    ensures var e := Replay(parsed, i, s, realMax);
      forall k :: 0 < k < |parsed| ==>
        e.values[k] == if i <= k && parsed[k].classLabel.Some? then parsed[k].classLabel.value else s.values[k]
    decreases |parsed| - i
  {
    if i < |parsed| {
      var next := Advance(s, i, parsed[i], realMax);
      ReplayValues(parsed, i + 1, next, realMax);
      var e := Replay(parsed, i + 1, next, realMax);
      assert Replay(parsed, i, s, realMax) == e;
      forall k | 0 < k < |parsed|
        ensures e.values[k] == if i <= k && parsed[k].classLabel.Some? then parsed[k].classLabel.value else s.values[k]
      {
        assert next.values[k] == if k == i && parsed[k].classLabel.Some? then parsed[k].classLabel.value else s.values[k];
      }
    }
  }

  /** Some line from `i` on is unlabelled. */
  predicate UnlabelledFrom(parsed: seq<LineRead>, i: nat) {
    exists j :: i <= j < |parsed| && parsed[j].classLabel.None?
  }

  /** `values[0]` ends up `realMax` when some line from `i` on is unlabelled, and otherwise
    holds the label of line 0 if the loop covers it (a label that may itself be `realMax`). */
  lemma {:induction false} ReplayFirstValue(parsed: seq<LineRead>, i: nat, s: FileState, realMax: real)
    requires 0 < |parsed| && i <= |parsed| == |s.data| == |s.values|
    ensures Replay(parsed, i, s, realMax).values[0]
         == if UnlabelledFrom(parsed, i) then realMax
            else if i == 0 then parsed[0].classLabel.value
            else s.values[0]
    decreases |parsed| - i
  {
    if i < |parsed| {
      var next := Advance(s, i, parsed[i], realMax);
      ReplayFirstValue(parsed, i + 1, next, realMax);
      UnlabelledFromStep(parsed, i);
    } else {
      assert !UnlabelledFrom(parsed, i);
    }
  }

  /** Some line from `i` on is unlabelled when line `i` is or some line after it is. */
  lemma UnlabelledFromStep(parsed: seq<LineRead>, i: nat)
    requires i < |parsed|
    ensures UnlabelledFrom(parsed, i) <==> parsed[i].classLabel.None? || UnlabelledFrom(parsed, i + 1)
  {
    if UnlabelledFrom(parsed, i) && parsed[i].classLabel.Some? {
      var j :| i <= j < |parsed| && parsed[j].classLabel.None?;
      assert i + 1 <= j;
    }
  }

  // ---------------------------------------------------------------- the file as a whole

  /** The pairs line `i` gives. */
  function PairsOf(lines: seq<string>, i: nat, parseReal: string -> Option<real>): seq<Feature>
    requires i < |lines| && ReadLine(lines[i], parseReal).Success?
  {
    ReadLine(lines[i], parseReal).value.pairs
  }

  /** The lines as read, when every one reads. */
  function ParsedLines(lines: seq<string>, parseReal: string -> Option<real>): (parsed: seq<LineRead>)
    requires forall i :: 0 <= i < |lines| ==> ReadLine(lines[i], parseReal).Success?
    ensures |parsed| == |lines| && forall i :: 0 <= i < |lines| ==> ReadLine(lines[i], parseReal) == Success(parsed[i])
  {
    seq(|lines|, i requires 0 <= i < |lines| => ReadLine(lines[i], parseReal).value)
  }

  /** A file that parses has rows of one common length `n > 0`, the largest width of a
    line: cell `k` of row `i` holds the last value line `i` gives for index `k`, and 0
    when it gives none. */
  lemma ReadFileRows(lines: seq<string>, data: seq<seq<real>>, values: seq<real>,
                     parseReal: string -> Option<real>, realMax: real)
    requires |lines| == |data| == |values|
    requires ReadFile(lines, data, values, parseReal, realMax).Success?
    ensures forall i :: 0 <= i < |lines| ==> ReadLine(lines[i], parseReal).Success?
    ensures var rows := ReadFile(lines, data, values, parseReal, realMax).value.0;
      && |rows| == |lines| > 0
      && (forall i :: 0 <= i < |lines| ==> |rows[i]| == |rows[0]| > 0)
      && (forall i :: 0 <= i < |lines| ==> Width(0, PairsOf(lines, i, parseReal)) <= |rows[0]|)
      && (exists i :: 0 <= i < |lines| && Width(0, PairsOf(lines, i, parseReal)) == |rows[0]|)
      && (forall i, k :: 0 <= i < |lines| && 0 <= k < |rows[i]| ==> rows[i][k] == LastValue(PairsOf(lines, i, parseReal), k))
  {
    var start := FileState(0, data, values);
    ReadFromReads(lines, 0, start, parseReal, realMax);
    var parsed := ParsedLines(lines, parseReal);
    ReadFromReplay(lines, 0, start, parseReal, realMax, parsed);
    ReplayRows(parsed, 0, start, realMax);
    var e := Replay(parsed, 0, start, realMax);
    var rows := ReadFile(lines, data, values, parseReal, realMax).value.0;
    assert |rows[0]| == e.maxSize > 0;
    forall i | 0 <= i < |lines|
      ensures |rows[i]| == e.maxSize && Width(0, PairsOf(lines, i, parseReal)) <= e.maxSize
      ensures forall k :: 0 <= k < |rows[i]| ==> rows[i][k] == LastValue(PairsOf(lines, i, parseReal), k)
    {
      assert rows[i] == Resize(e.data[i], e.maxSize);
      assert PairsOf(lines, i, parseReal) == parsed[i].pairs;
      ResizeHolds(e.data[i], parsed[i].pairs, e.maxSize);
    }
    var j :| 0 <= j < |lines| && e.maxSize == Width(0, parsed[j].pairs);
    assert PairsOf(lines, j, parseReal) == parsed[j].pairs;
  }

  /** A file that parses gives each labelled line's label in its slot (slot 0 aside), and
    `values[0]` is `realMax` exactly when some line is unlabelled, the label of line 0
    otherwise. */
  lemma ReadFileValues(lines: seq<string>, data: seq<seq<real>>, values: seq<real>,
                       parseReal: string -> Option<real>, realMax: real)
    requires |lines| == |data| == |values|
    requires ReadFile(lines, data, values, parseReal, realMax).Success?
    ensures forall i :: 0 <= i < |lines| ==> ReadLine(lines[i], parseReal).Success?
    ensures var v := ReadFile(lines, data, values, parseReal, realMax).value.1;
      && |v| == |lines| > 0
      && (forall i :: 0 < i < |lines| ==>
            v[i] == if Labelled(lines[i]) then ReadLine(lines[i], parseReal).value.classLabel.value else values[i])
      && (v[0] == realMax <== exists i :: 0 <= i < |lines| && !Labelled(lines[i]))
      && ((forall i :: 0 <= i < |lines| ==> Labelled(lines[i])) ==> Some(v[0]) == ReadLine(lines[0], parseReal).value.classLabel)
  {
    var start := FileState(0, data, values);
    ReadFromReads(lines, 0, start, parseReal, realMax);
    var parsed := ParsedLines(lines, parseReal);
    ReadFromReplay(lines, 0, start, parseReal, realMax, parsed);
    ReplayValues(parsed, 0, start, realMax);
    ReplayFirstValue(parsed, 0, start, realMax);
    if exists i :: 0 <= i < |lines| && !Labelled(lines[i]) {
      var i :| 0 <= i < |lines| && !Labelled(lines[i]);
      assert UnlabelledFrom(parsed, 0) by {
        assert parsed[i].classLabel.None?;
      }
    }
    if forall i :: 0 <= i < |lines| ==> Labelled(lines[i]) {
      assert !UnlabelledFrom(parsed, 0);
    }
  }

  /** `parse_libsvm` keeps the labels only when `values[0]` is not the marker, and maps
    each to 1 when it is positive and to -1 otherwise. */
  function SignLabels(values: seq<real>, realMax: real): (labels: Option<seq<real>>)
    requires |values| > 0
  {
    if values[0] == realMax then None
    else Some(seq(|values|, i requires 0 <= i < |values| => if values[i] > 0.0 then 1.0 else -1.0))
  }

  /** The labels `parse_libsvm` keeps from a file that parses: none as soon as one line is
    unlabelled (or the first label equals the marker); otherwise, for every line, 1 for a
    positive label and -1 for any other. */
  lemma LibsvmLabels(lines: seq<string>, parseReal: string -> Option<real>, realMax: real)
    requires ReadFile(lines, seq(|lines|, _ => []), LibsvmParsing.Zeros(|lines|), parseReal, realMax).Success?
    ensures forall i :: 0 <= i < |lines| ==> ReadLine(lines[i], parseReal).Success?
    ensures var v := ReadFile(lines, seq(|lines|, _ => []), LibsvmParsing.Zeros(|lines|), parseReal, realMax).value.1;
      && |v| == |lines| > 0
      && (SignLabels(v, realMax).None? <==>
            (exists i :: 0 <= i < |lines| && !Labelled(lines[i])) || ReadLine(lines[0], parseReal).value.classLabel == Some(realMax))
      && (SignLabels(v, realMax).Some? ==> forall i :: 0 <= i < |lines| ==>
            Labelled(lines[i]) && SignLabels(v, realMax).value[i]
              == if ReadLine(lines[i], parseReal).value.classLabel.value > 0.0 then 1.0 else -1.0)
  {
    ReadFileValues(lines, seq(|lines|, _ => []), LibsvmParsing.Zeros(|lines|), parseReal, realMax);
  }
}
