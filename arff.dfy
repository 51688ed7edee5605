/** The ARFF reader of parameter.cpp (`parameter::parse_arff`): a header of `@RELATION`,
  `@ATTRIBUTE name NUMERIC` and `@DATA` lines, matched without regard to case, then one
  data point per line, either dense (`1.5,2,0,1`) or sparse (`{0 1.5,1 2,3 1}`). The
  CLASS attribute, when there is one, must be the last; its value becomes the label,
  1 when positive and -1 otherwise. */
module Arff {
  import opened Wrappers
  import opened StringUtility
  import LibsvmParsing
  import opened LibsvmFile

  // ---------------------------------------------------------------- the header

  /** `std::toupper` in the "C" locale. */
  function ToUpper(c: char): char {
    if 'a' <= c <= 'z' then (c as int - 32) as char else c
  }

  function UpperString(s: string): (r: string)
    ensures |r| == |s| && forall i :: 0 <= i < |s| ==> r[i] == ToUpper(s[i])
  {
    seq(|s|, i requires 0 <= i < |s| => ToUpper(s[i]))
  }

  /** What a header line (in upper case) is, tested in the source's order. */
  datatype HeaderKey = RelationKey | AttributeKey | DataKey | OtherKey

  function HeaderKeyOf(line: string): HeaderKey {
    if StartsWith(line, "@RELATION") then RelationKey
    else if StartsWith(line, "@ATTRIBUTE") then AttributeKey
    else if StartsWith(line, "@DATA") then DataKey
    else OtherKey
  }

  /** The header line `j` in upper case. */
  function HeaderLine(lines: seq<string>, j: nat): string
    requires j < |lines|
  {
    UpperString(lines[j])
  }

  /** The number of attributes, whether the last is the CLASS attribute, and the index of
    the `@DATA` line (the number of lines when there is none). */
  datatype ArffHeader = ArffHeader(numAttributes: nat, hasLabel: bool, dataLine: nat)

  /** One `@ATTRIBUTE` line: it must be NUMERIC and may not follow the CLASS attribute. */
  function AttributeStep(line: string, numAttributes: nat, hasLabel: bool): Result<(nat, bool), FormatError> {
    if !Contains(line, "NUMERIC") then Failure(NotNumeric(line))
    else if hasLabel then Failure(ClassNotLast)
    else Success((numAttributes + 1, Contains(line, "CLASS")))
  }

  /** The header loop from line `i` on: other lines, `@RELATION` among them, are skipped. */
  function HeaderFrom(lines: seq<string>, i: nat, numAttributes: nat, hasLabel: bool): (r: Result<ArffHeader, FormatError>)
    requires i <= |lines|
    ensures r.Success? ==> i <= r.value.dataLine <= |lines|
    decreases |lines| - i, 1
  {
    if i == |lines| then Success(ArffHeader(numAttributes, hasLabel, i))
    else HeaderAfter(lines, i, HeaderLine(lines, i), numAttributes, hasLabel)
  }

  /** The header loop at line `i`, which reads `line` in upper case. */
  function HeaderAfter(lines: seq<string>, i: nat, line: string, numAttributes: nat, hasLabel: bool)
    : (r: Result<ArffHeader, FormatError>)
    requires i < |lines|
    ensures r.Success? ==> i <= r.value.dataLine <= |lines|
    decreases |lines| - i, 0
  {
    match HeaderKeyOf(line)
    case DataKey => Success(ArffHeader(numAttributes, hasLabel, i))
    case AttributeKey =>
      var a := AttributeStep(line, numAttributes, hasLabel);
      if a.Failure? then Failure(a.error) else HeaderFrom(lines, i + 1, a.value.0, a.value.1)
    case _ => HeaderFrom(lines, i + 1, numAttributes, hasLabel)
  }

  /** The header loop: every line in turn up to `@DATA`. */
  method ScanArffHeader(lines: seq<string>) returns (r: Result<ArffHeader, FormatError>)
    ensures r == HeaderFrom(lines, 0, 0, false)
  {
    var maxSize, hasLabel := 0, false;
    var header := 0;
    while header < |lines|
      invariant header <= |lines|
      invariant HeaderFrom(lines, 0, 0, false) == HeaderFrom(lines, header, maxSize, hasLabel)
    {
      var line := UpperString(lines[header]);
      var key := HeaderKeyOf(line);
      if key == DataKey {
        break;
      }
      if key == AttributeKey {
        if !Contains(line, "NUMERIC") {
          return Failure(NotNumeric(line));
        }
        if hasLabel {
          return Failure(ClassNotLast);
        }
        hasLabel := Contains(line, "CLASS");
        maxSize := maxSize + 1;
      }
      header := header + 1;
    }
    return Success(ArffHeader(maxSize, hasLabel, header));
  }

  /** Is line `j` an attribute line? */
  predicate IsAttribute(lines: seq<string>, j: nat)
    requires j < |lines|
  {
    HeaderKeyOf(HeaderLine(lines, j)) == AttributeKey
  }

  /** The number of attribute lines among lines `i` up to `k`. */
  function CountAttributes(lines: seq<string>, i: nat, k: nat): nat
    requires i <= k <= |lines|
    decreases k - i
  {
    if i == k then 0 else (if IsAttribute(lines, i) then 1 else 0) + CountAttributes(lines, i + 1, k)
  }

  /** The header loop past line `i` when line `i` is not `@DATA`. */
  function NextHeader(lines: seq<string>, i: nat, numAttributes: nat, hasLabel: bool): (r: Result<(nat, bool), FormatError>)
    requires i < |lines|
  {
    var line := HeaderLine(lines, i);
    if HeaderKeyOf(line) == AttributeKey then AttributeStep(line, numAttributes, hasLabel)
    else Success((numAttributes, hasLabel))
  }

  lemma HeaderUnfold(lines: seq<string>, i: nat, numAttributes: nat, hasLabel: bool)
    requires i < |lines| && HeaderKeyOf(HeaderLine(lines, i)) != DataKey
    requires HeaderFrom(lines, i, numAttributes, hasLabel).Success?
    ensures NextHeader(lines, i, numAttributes, hasLabel).Success?
    ensures var a := NextHeader(lines, i, numAttributes, hasLabel).value;
      HeaderFrom(lines, i, numAttributes, hasLabel) == HeaderFrom(lines, i + 1, a.0, a.1)
  {
  }

  /** At the end of the lines or at `@DATA` the header loop stops where it is. */
  lemma HeaderAtData(lines: seq<string>, i: nat, numAttributes: nat, hasLabel: bool)
    requires i <= |lines|
    requires i == |lines| || HeaderKeyOf(HeaderLine(lines, i)) == DataKey
    ensures HeaderFrom(lines, i, numAttributes, hasLabel) == Success(ArffHeader(numAttributes, hasLabel, i))
  {
  }

  /** A line before the one the header loop stops at is not `@DATA`, and the loop goes
    past it. */
  lemma HeaderPast(lines: seq<string>, i: nat, numAttributes: nat, hasLabel: bool)
    requires i < |lines| && HeaderFrom(lines, i, numAttributes, hasLabel).Success?
    requires i < HeaderFrom(lines, i, numAttributes, hasLabel).value.dataLine
    ensures HeaderKeyOf(HeaderLine(lines, i)) != DataKey
    ensures NextHeader(lines, i, numAttributes, hasLabel).Success?
    ensures var a := NextHeader(lines, i, numAttributes, hasLabel).value;
      && HeaderFrom(lines, i + 1, a.0, a.1).Success?
      && HeaderFrom(lines, i + 1, a.0, a.1).value.dataLine == HeaderFrom(lines, i, numAttributes, hasLabel).value.dataLine
  {
    if HeaderKeyOf(HeaderLine(lines, i)) == DataKey {
      HeaderAtData(lines, i, numAttributes, hasLabel);
      assert false;
    }
    HeaderUnfold(lines, i, numAttributes, hasLabel);
  }

  /** The header loop reaches every line before the one it stops at, with the counts it
    has then, and goes on from there to the same end. */
  lemma {:induction false} HeaderReaches(lines: seq<string>, i: nat, numAttributes: nat, hasLabel: bool, j: nat)
    returns (n: nat, h: bool)
    requires i <= j < |lines|
    requires HeaderFrom(lines, i, numAttributes, hasLabel).Success?
    requires j < HeaderFrom(lines, i, numAttributes, hasLabel).value.dataLine
    ensures HeaderFrom(lines, j, n, h).Success?
    ensures HeaderFrom(lines, j, n, h).value.dataLine == HeaderFrom(lines, i, numAttributes, hasLabel).value.dataLine
    decreases j - i
  {
    if i < j {
      HeaderPast(lines, i, numAttributes, hasLabel);
      var a := NextHeader(lines, i, numAttributes, hasLabel).value;
      n, h := HeaderReaches(lines, i + 1, a.0, a.1, j);
    } else {
      n, h := numAttributes, hasLabel;
    }
  }

  /** No line before the one the header loop stops at is `@DATA`. */
  lemma HeaderSkipsTo(lines: seq<string>, i: nat, numAttributes: nat, hasLabel: bool, j: nat)
    requires i <= j < |lines|
    requires HeaderFrom(lines, i, numAttributes, hasLabel).Success?
    requires j < HeaderFrom(lines, i, numAttributes, hasLabel).value.dataLine
    ensures HeaderKeyOf(HeaderLine(lines, j)) != DataKey
  {
    var n, h := HeaderReaches(lines, i, numAttributes, hasLabel, j);
    HeaderPast(lines, j, n, h);
  }

  /** A header loop that stops at the line it starts on stops there because that line is
    `@DATA` (or there is none). */
  lemma HeaderStopsHere(lines: seq<string>, k: nat, numAttributes: nat, hasLabel: bool)
    requires k < |lines| && HeaderFrom(lines, k, numAttributes, hasLabel).Success?
    requires HeaderFrom(lines, k, numAttributes, hasLabel).value.dataLine == k
    ensures HeaderKeyOf(HeaderLine(lines, k)) == DataKey
  {
    if HeaderKeyOf(HeaderLine(lines, k)) != DataKey {
      HeaderUnfold(lines, k, numAttributes, hasLabel);
      assert false;
    }
  }

  /** The line the header loop stops at, when there is one, is `@DATA`. */
  lemma HeaderStopsAtData(lines: seq<string>, i: nat, numAttributes: nat, hasLabel: bool)
    requires i <= |lines|
    requires HeaderFrom(lines, i, numAttributes, hasLabel).Success?
    ensures var h := HeaderFrom(lines, i, numAttributes, hasLabel).value;
      h.dataLine < |lines| ==> HeaderKeyOf(HeaderLine(lines, h.dataLine)) == DataKey
  {
    var d := HeaderFrom(lines, i, numAttributes, hasLabel).value.dataLine;
    if d < |lines| {
      if d == i {
        HeaderStopsHere(lines, i, numAttributes, hasLabel);
      } else {
        var n, h := HeaderReaches(lines, i, numAttributes, hasLabel, d - 1);
        HeaderPast(lines, d - 1, n, h);
        var a := NextHeader(lines, d - 1, n, h).value;
        HeaderStopsHere(lines, d, a.0, a.1);
      }
    }
  }

  /** The header stops at the first `@DATA` line, or at the end. */
  lemma HeaderStops(lines: seq<string>, i: nat, numAttributes: nat, hasLabel: bool)
    requires i <= |lines|
    requires HeaderFrom(lines, i, numAttributes, hasLabel).Success?
    ensures var h := HeaderFrom(lines, i, numAttributes, hasLabel).value;
      && (forall j :: i <= j < h.dataLine ==> HeaderKeyOf(HeaderLine(lines, j)) != DataKey)
      && (h.dataLine < |lines| ==> HeaderKeyOf(HeaderLine(lines, h.dataLine)) == DataKey)
  {
    var h := HeaderFrom(lines, i, numAttributes, hasLabel).value;
    forall j | i <= j < h.dataLine ensures HeaderKeyOf(HeaderLine(lines, j)) != DataKey {
      HeaderSkipsTo(lines, i, numAttributes, hasLabel, j);
    }
    HeaderStopsAtData(lines, i, numAttributes, hasLabel);
  }

  /** One header turn past an attribute line requires NUMERIC and counts one more
    attribute; past any other line it counts nothing. */
  lemma NextHeaderCounts(lines: seq<string>, i: nat, numAttributes: nat, hasLabel: bool)
    requires i < |lines| && NextHeader(lines, i, numAttributes, hasLabel).Success?
    ensures var a := NextHeader(lines, i, numAttributes, hasLabel).value;
      && (IsAttribute(lines, i) ==> Contains(HeaderLine(lines, i), "NUMERIC"))
      && a.0 == numAttributes + (if IsAttribute(lines, i) then 1 else 0)
  {
  }

  /** The header loop goes past an attribute line only when it is NUMERIC. */
  lemma HeaderNumericFirst(lines: seq<string>, i: nat, numAttributes: nat, hasLabel: bool)
    requires i < |lines| && IsAttribute(lines, i)
    requires HeaderFrom(lines, i, numAttributes, hasLabel).Success?
    ensures Contains(HeaderLine(lines, i), "NUMERIC")
  {
    HeaderUnfold(lines, i, numAttributes, hasLabel);
    NextHeaderCounts(lines, i, numAttributes, hasLabel);
  }

  /** An attribute line before `@DATA` is NUMERIC. */
  lemma HeaderNumericAt(lines: seq<string>, i: nat, numAttributes: nat, hasLabel: bool, j: nat)
    requires i <= j < |lines|
    requires HeaderFrom(lines, i, numAttributes, hasLabel).Success?
    requires j < HeaderFrom(lines, i, numAttributes, hasLabel).value.dataLine && IsAttribute(lines, j)
    ensures Contains(HeaderLine(lines, j), "NUMERIC")
  {
    var n, h := HeaderReaches(lines, i, numAttributes, hasLabel, j);
    HeaderNumericFirst(lines, j, n, h);
  }

  /** Every attribute line before `@DATA` is NUMERIC. */
  lemma HeaderNumeric(lines: seq<string>, i: nat, numAttributes: nat, hasLabel: bool)
    requires i <= |lines|
    requires HeaderFrom(lines, i, numAttributes, hasLabel).Success?
    ensures var h := HeaderFrom(lines, i, numAttributes, hasLabel).value;
      forall j :: i <= j < h.dataLine && IsAttribute(lines, j) ==> Contains(HeaderLine(lines, j), "NUMERIC")
  {
    var h := HeaderFrom(lines, i, numAttributes, hasLabel).value;
    forall j | i <= j < h.dataLine && IsAttribute(lines, j) ensures Contains(HeaderLine(lines, j), "NUMERIC") {
      HeaderNumericAt(lines, i, numAttributes, hasLabel, j);
    }
  }

  /** Each attribute line before `@DATA` counts one attribute. */
  lemma {:induction false} HeaderCount(lines: seq<string>, i: nat, numAttributes: nat, hasLabel: bool)
    requires i <= |lines|
    requires HeaderFrom(lines, i, numAttributes, hasLabel).Success?
    ensures var h := HeaderFrom(lines, i, numAttributes, hasLabel).value;
      h.numAttributes == numAttributes + CountAttributes(lines, i, h.dataLine)
    decreases |lines| - i
  {
    if i < |lines| && HeaderKeyOf(HeaderLine(lines, i)) != DataKey {
      HeaderUnfold(lines, i, numAttributes, hasLabel);
      NextHeaderCounts(lines, i, numAttributes, hasLabel);
      var a := NextHeader(lines, i, numAttributes, hasLabel).value;
      HeaderCount(lines, i + 1, a.0, a.1);
    } else {
      HeaderAtData(lines, i, numAttributes, hasLabel);
    }
  }

  /** Every attribute line before `@DATA` is NUMERIC, and each one counts one attribute. */
  lemma HeaderCounts(lines: seq<string>, i: nat, numAttributes: nat, hasLabel: bool)
    requires i <= |lines|
    requires HeaderFrom(lines, i, numAttributes, hasLabel).Success?
    ensures var h := HeaderFrom(lines, i, numAttributes, hasLabel).value;
      && (forall j :: i <= j < h.dataLine && IsAttribute(lines, j) ==> Contains(HeaderLine(lines, j), "NUMERIC"))
      && h.numAttributes == numAttributes + CountAttributes(lines, i, h.dataLine)
  {
    HeaderNumeric(lines, i, numAttributes, hasLabel);
    HeaderCount(lines, i, numAttributes, hasLabel);
  }

  /** Some attribute line names CLASS. */
  predicate ClassBetween(lines: seq<string>, i: nat, k: nat)
    requires i <= k <= |lines|
  {
    exists j :: i <= j < k && IsAttribute(lines, j) && Contains(HeaderLine(lines, j), "CLASS")
  }

  /** The label flag is set exactly when an attribute line names CLASS. */
  lemma {:induction false} HeaderLabel(lines: seq<string>, i: nat, numAttributes: nat, hasLabel: bool)
    requires i <= |lines|
    requires HeaderFrom(lines, i, numAttributes, hasLabel).Success?
    ensures var h := HeaderFrom(lines, i, numAttributes, hasLabel).value;
      h.hasLabel <==> hasLabel || ClassBetween(lines, i, h.dataLine)
    decreases |lines| - i
  {
    if i < |lines| && HeaderKeyOf(HeaderLine(lines, i)) != DataKey {
      HeaderUnfold(lines, i, numAttributes, hasLabel);
      var a := NextHeader(lines, i, numAttributes, hasLabel).value;
      HeaderLabel(lines, i + 1, a.0, a.1);
      var h := HeaderFrom(lines, i + 1, a.0, a.1).value;
      if IsAttribute(lines, i) && Contains(HeaderLine(lines, i), "CLASS") {
        assert ClassBetween(lines, i, h.dataLine);
      }
      if ClassBetween(lines, i + 1, h.dataLine) {
        var j :| i + 1 <= j < h.dataLine && IsAttribute(lines, j) && Contains(HeaderLine(lines, j), "CLASS");
        assert ClassBetween(lines, i, h.dataLine);
      }
      if ClassBetween(lines, i, h.dataLine) && !(IsAttribute(lines, i) && Contains(HeaderLine(lines, i), "CLASS")) {
        var j :| i <= j < h.dataLine && IsAttribute(lines, j) && Contains(HeaderLine(lines, j), "CLASS");
        assert ClassBetween(lines, i + 1, h.dataLine);
      }
    }
  }

  /** Once the CLASS attribute is seen no attribute line follows before `@DATA`. */
  lemma {:induction false} HeaderNothingAfterClass(lines: seq<string>, i: nat, numAttributes: nat, hasLabel: bool)
    requires i <= |lines| && hasLabel
    requires HeaderFrom(lines, i, numAttributes, hasLabel).Success?
    ensures var h := HeaderFrom(lines, i, numAttributes, hasLabel).value;
      forall j :: i <= j < h.dataLine ==> !IsAttribute(lines, j)
    decreases |lines| - i
  {
    if i < |lines| && HeaderKeyOf(HeaderLine(lines, i)) != DataKey {
      HeaderUnfold(lines, i, numAttributes, hasLabel);
      var a := NextHeader(lines, i, numAttributes, hasLabel).value;
      assert !IsAttribute(lines, i) && a == (numAttributes, hasLabel);
      HeaderNothingAfterClass(lines, i + 1, a.0, a.1);
    }
  }

  /** No attribute line before `@DATA` follows an attribute line that names CLASS. */
  lemma {:induction false} HeaderClassLast(lines: seq<string>, i: nat, numAttributes: nat, hasLabel: bool)
    requires i <= |lines|
    requires HeaderFrom(lines, i, numAttributes, hasLabel).Success?
    ensures var h := HeaderFrom(lines, i, numAttributes, hasLabel).value;
      forall j, j' :: i <= j < j' < h.dataLine && IsAttribute(lines, j) && IsAttribute(lines, j') ==>
        !Contains(HeaderLine(lines, j), "CLASS")
    decreases |lines| - i
  {
    if i < |lines| && HeaderKeyOf(HeaderLine(lines, i)) != DataKey {
      HeaderUnfold(lines, i, numAttributes, hasLabel);
      var a := NextHeader(lines, i, numAttributes, hasLabel).value;
      HeaderClassLast(lines, i + 1, a.0, a.1);
      var h := HeaderFrom(lines, i + 1, a.0, a.1).value;
      var classFirst := IsAttribute(lines, i) && Contains(HeaderLine(lines, i), "CLASS");
      if classFirst {
        assert a.1;
        HeaderNothingAfterClass(lines, i + 1, a.0, a.1);
      }
      forall j, j' | i <= j < j' < h.dataLine && IsAttribute(lines, j) && IsAttribute(lines, j')
        ensures !Contains(HeaderLine(lines, j), "CLASS")
      {
        if j == i {
          assert !classFirst;
        }
      }
    }
  }

  // ---------------------------------------------------------------- one data line

  /** The number of columns a data point fills: one per attribute but the CLASS one. */
  function ColumnEnd(h: ArffHeader): nat
    requires h.hasLabel ==> h.numAttributes > 0
  {
    if h.hasLabel then h.numAttributes - 1 else h.numAttributes
  }

  /** A label as the reader stores it. */
  function Sign(v: real): real {
    if v > 0.0 then 1.0 else -1.0
  }

  /** A sparse line so far: its row, its label and whether the class was given. */
  datatype SparseRead = SparseRead(row: seq<real>, classValue: real, classSet: bool)

  /** A text that ends with '}' has a ',' or '}' from any position before its end. */
  lemma BraceAhead(line: string, p: nat)
    requires p < |line| && line[|line| - 1] == '}'
    ensures LibsvmParsing.FindFirst(line, {',', '}'}, p).Some?
  {
    LibsvmParsing.FindFirstSkips(line, {',', '}'}, p);
  }

  /** One `index value` pair of a sparse line at `pos`: `None` when no space follows,
    otherwise the read updated and the position after the next ',' or '}' and the spaces
    behind it. (The source drops the part of the line read so far and trims the rest; the
    model keeps the line and moves the position, which reads the same characters.) Index
    `end` is the class, whose value is the whole rest of the line; an index past `end` is
    rejected. */
  function SparseStep(line: string, pos: nat, acc: SparseRead, end: nat, parseReal: string -> Option<real>)
    : (r: Result<Option<(SparseRead, nat)>, FormatError>)
    requires pos <= |line| && EndsWithChar(line, '}') && |acc.row| == end
    ensures r.Success? && r.value.Some? ==>
      pos < r.value.value.1 <= |line| && |r.value.value.0.row| == end
  {
    var space := LibsvmParsing.FindFirst(line, {' '}, pos);
    if space.None? then Success(None)
    else
      var index := LibsvmParsing.LibraryIndex(line[pos..space.value]);
      if index.Failure? then Failure(BadIndex(index.error))
      else
        SparsePair(line, space.value + 1, index.value, acc, end, parseReal)
  }

  /** The value of a sparse pair with index `index`, which starts at `p`. */
  function SparsePair(line: string, p: nat, index: nat, acc: SparseRead, end: nat, parseReal: string -> Option<real>)
    : (r: Result<Option<(SparseRead, nat)>, FormatError>)
    requires p < |line| && EndsWithChar(line, '}') && |acc.row| == end
    ensures r.Success? && r.value.Some? ==>
      p < r.value.value.1 <= |line| && |r.value.value.0.row| == end
  {
    BraceAhead(line, p);
    var next := LibsvmParsing.FindFirst(line, {',', '}'}, p).value;
    var after := FirstNotOf(line, ' ', next + 1);
    if index == end then
      var text := line[p..];
      if parseReal(text).None? then Failure(BadReal(text))
      else Success(Some((SparseRead(acc.row, Sign(parseReal(text).value), true), after)))
    else if index > end then Failure(SparseIndexOutOfRange(index, end))
    else
      var text := line[p..next];
      if parseReal(text).None? then Failure(BadReal(text))
      else Success(Some((acc.(row := acc.row[index := parseReal(text).value]), after)))
  }

  /** The loop over the pairs of a sparse line. */
  function SparseFrom(line: string, pos: nat, acc: SparseRead, end: nat, parseReal: string -> Option<real>)
    : (r: Result<SparseRead, FormatError>)
    requires pos <= |line| && EndsWithChar(line, '}') && |acc.row| == end
    ensures r.Success? ==> |r.value.row| == end
    decreases |line| - pos
  {
    var step := SparseStep(line, pos, acc, end, parseReal);
    if step.Failure? then Failure(step.error)
    else if step.value.None? then Success(acc)
    else SparseFrom(line, step.value.value.1, step.value.value.0, end, parseReal)
  }

  /** The dense loop from field `j` at `pos`: each of the fields up to `end` must end with
    a ','. Returns the row and the position after the last of those commas. */
  function DenseFrom(line: string, j: nat, pos: nat, row: seq<real>, end: nat, parseReal: string -> Option<real>)
    : (r: Result<(seq<real>, nat), FormatError>)
    requires pos <= |line| && j <= end == |row|
    ensures r.Success? ==> |r.value.0| == end && pos <= r.value.1 <= |line|
    decreases end - j
  {
    if j == end then Success((row, pos))
    else
      var next := LibsvmParsing.FindFirst(line, {','}, pos);
      if next.None? then Failure(TooFewValues(j, end))
      else
        var text := line[pos..next.value];
        if parseReal(text).None? then Failure(BadReal(text))
        else DenseFrom(line, j + 1, next.value + 1, row[j := parseReal(text).value], end, parseReal)
  }

  /** One data line: its row of `end` values and its label (0 when the file has no class
    and the line does not give one). */
  function DataLine(line: string, end: nat, hasLabel: bool, parseReal: string -> Option<real>)
    : (r: Result<(seq<real>, real), FormatError>)
    ensures r.Success? ==> |r.value.0| == end
  {
    if StartsWithChar(line, '@') then Failure(AtInData(line))
    else if StartsWithChar(line, '{') then
      if !EndsWithChar(line, '}') then Failure(MissingClosingBrace)
      else
        var s := SparseFrom(line, 1, SparseRead(LibsvmParsing.Zeros(end), 0.0, false), end, parseReal);
        if s.Failure? then Failure(s.error)
        else if !s.value.classSet && hasLabel then Failure(MissingClass)
        else Success((s.value.row, s.value.classValue))
    else
      var d := DenseFrom(line, 0, 0, LibsvmParsing.Zeros(end), end, parseReal);
      if d.Failure? then Failure(d.error)
      else if !hasLabel then Success((d.value.0, 0.0))
      else
        var text := line[d.value.1..];
        if parseReal(text).None? then Failure(BadReal(text)) else Success((d.value.0, Sign(parseReal(text).value)))
  }

  /** The sparse loop: one `index value` pair per turn until no space is left. */
  method ReadSparse(line: string, end: nat, parseReal: string -> Option<real>) returns (r: Result<SparseRead, FormatError>)
    requires EndsWithChar(line, '}')
    ensures r == SparseFrom(line, 1, SparseRead(LibsvmParsing.Zeros(end), 0.0, false), end, parseReal)
  {
    var pos: nat, acc := 1, SparseRead(LibsvmParsing.Zeros(end), 0.0, false);
    while true
      invariant pos <= |line| && |acc.row| == end
      invariant SparseFrom(line, 1, SparseRead(LibsvmParsing.Zeros(end), 0.0, false), end, parseReal)
        == SparseFrom(line, pos, acc, end, parseReal)
      decreases |line| - pos
    {
      var step := SparseStep(line, pos, acc, end, parseReal);
      if step.Failure? {
        return Failure(step.error);
      }
      if step.value.None? {
        break;
      }
      pos, acc := step.value.value.1, step.value.value.0;
    }
    return Success(acc);
  }

  /** The dense loop: the fields up to `end`, each closed by a ','. */
  method ReadDense(line: string, end: nat, parseReal: string -> Option<real>) returns (r: Result<(seq<real>, nat), FormatError>)
    ensures r == DenseFrom(line, 0, 0, LibsvmParsing.Zeros(end), end, parseReal)
  {
    var pos: nat, row := 0, LibsvmParsing.Zeros(end);
    for j := 0 to end
      invariant pos <= |line| && |row| == end
      invariant DenseFrom(line, 0, 0, LibsvmParsing.Zeros(end), end, parseReal) == DenseFrom(line, j, pos, row, end, parseReal)
    {
      var next := LibsvmParsing.FindFirst(line, {','}, pos);
      if next.None? {
        return Failure(TooFewValues(j, end));
      }
      var text := line[pos..next.value];
      var v := parseReal(text);
      if v.None? {
        return Failure(BadReal(text));
      }
      row := row[j := v.value];
      pos := next.value + 1;
    }
    return Success((row, pos));
  }

  /** The body of the data loop for one line. */
  method ReadDataLine(line: string, end: nat, hasLabel: bool, parseReal: string -> Option<real>)
    returns (r: Result<(seq<real>, real), FormatError>)
    ensures r == DataLine(line, end, hasLabel, parseReal)
  {
    if StartsWithChar(line, '@') {
      return Failure(AtInData(line));
    }
    if StartsWithChar(line, '{') {
      if !EndsWithChar(line, '}') {
        return Failure(MissingClosingBrace);
      }
      var s := ReadSparse(line, end, parseReal);
      if s.Failure? {
        return Failure(s.error);
      }
      if !s.value.classSet && hasLabel {
        return Failure(MissingClass);
      }
      return Success((s.value.row, s.value.classValue));
    }
    var d := ReadDense(line, end, parseReal);
    if d.Failure? {
      return Failure(d.error);
    }
    if !hasLabel {
      return Success((d.value.0, 0.0));
    }
    var text := line[d.value.1..];
    var v := parseReal(text);
    if v.None? {
      return Failure(BadReal(text));
    }
    return Success((d.value.0, Sign(v.value)));
  }

  /** `find_first_of` with a single character is `find` of that character. */
  lemma {:induction false} FindFirstIsFind(line: string, c: char, pos: nat)
    requires pos <= |line|
    ensures LibsvmParsing.FindFirst(line, {c}, pos) == Find(line, [c], pos)
    decreases |line| - pos
  {
    if pos < |line| {
      assert line[pos..pos + 1] == [line[pos]];
      if line[pos] != c {
        FindFirstIsFind(line, c, pos + 1);
      }
    }
  }

  /** The comma-separated fields of `line` from `pos` on, found with `find_first_of`. */
  function Fields(line: string, pos: nat): (r: seq<string>)
    requires pos <= |line|
    decreases |line| - pos
  {
    var next := LibsvmParsing.FindFirst(line, {','}, pos);
    if next.None? then [line[pos..]]
    else [line[pos..next.value]] + Fields(line, next.value + 1)
  }

  /** They are the pieces `split` cuts at each ','. */
  lemma {:induction false} FieldsAreSplit(line: string, pos: nat)
    requires pos <= |line|
    ensures Fields(line, pos) == SplitFrom(line, ',', pos)
    decreases |line| - pos
  {
    FindFirstIsFind(line, ',', pos);
    var next := LibsvmParsing.FindFirst(line, {','}, pos);
    if next.Some? {
      FieldsAreSplit(line, next.value + 1);
    }
  }

  /** The dense loop from field `j` succeeds exactly when there are more fields than
    columns left and each of those converts. */
  lemma {:induction false} DenseSucceeds(line: string, j: nat, pos: nat, row: seq<real>, end: nat, parseReal: string -> Option<real>)
    requires pos <= |line| && j <= end == |row|
    ensures var fields := Fields(line, pos);
      DenseFrom(line, j, pos, row, end, parseReal).Success? <==>
        |fields| > end - j && forall t :: 0 <= t < end - j ==> parseReal(fields[t]).Some?
    decreases end - j
  {
    var fields := Fields(line, pos);
    if j < end {
      var next := LibsvmParsing.FindFirst(line, {','}, pos);
      if next.Some? {
        var text := line[pos..next.value];
        assert fields[0] == text;
        if parseReal(text).Some? {
          var row' := row[j := parseReal(text).value];
          DenseSucceeds(line, j + 1, next.value + 1, row', end, parseReal);
          var rest := Fields(line, next.value + 1);
          assert forall t :: 0 < t < |fields| ==> fields[t] == rest[t - 1];
          assert fields == [text] + rest;
          if |rest| > end - (j + 1) && forall t :: 0 <= t < end - (j + 1) ==> parseReal(rest[t]).Some? {
            forall t | 0 <= t < end - j ensures parseReal(fields[t]).Some? {
              if t > 0 {
                assert fields[t] == rest[t - 1];
              }
            }
          } else if |rest| > end - (j + 1) {
            var t :| 0 <= t < end - (j + 1) && parseReal(rest[t]).None?;
            assert fields[t + 1] == rest[t];
          }
        }
      } else {
        assert fields == [line[pos..]];
      }
    }
  }

  /** One turn of a dense loop that succeeds: the next ',' exists, the field before it
    converts, and the loop goes on from just after it. */
  lemma DenseStep(line: string, j: nat, pos: nat, row: seq<real>, end: nat, parseReal: string -> Option<real>)
    requires pos <= |line| && j < end == |row|
    requires DenseFrom(line, j, pos, row, end, parseReal).Success?
    ensures var next := LibsvmParsing.FindFirst(line, {','}, pos);
      && next.Some? && pos <= next.value < |line|
      && parseReal(line[pos..next.value]).Some?
      && Fields(line, pos) == [line[pos..next.value]] + Fields(line, next.value + 1)
      && var d' := DenseFrom(line, j + 1, next.value + 1, row[j := parseReal(line[pos..next.value]).value], end, parseReal);
         d'.Success? && DenseFrom(line, j, pos, row, end, parseReal).value == d'.value
  {
  }

  /** Dropping `n` elements from a one-element prefix followed by `rest`. */
  lemma DropAfterFirst<T>(first: seq<T>, rest: seq<T>, n: nat)
    requires |first| == 1 && 1 <= n <= |rest| + 1
    ensures (first + rest)[n..] == rest[n - 1..]
  {
  }

  /** A dense loop from field `j` that succeeds leaves the columns before `j` as they
    were. */
  lemma {:induction false} DenseKeeps(line: string, j: nat, pos: nat, row: seq<real>, end: nat, parseReal: string -> Option<real>)
    requires pos <= |line| && j <= end == |row|
    requires DenseFrom(line, j, pos, row, end, parseReal).Success?
    ensures var d := DenseFrom(line, j, pos, row, end, parseReal).value;
      forall k :: 0 <= k < j ==> d.0[k] == row[k]
    decreases end - j
  {
    if j < end {
      DenseStep(line, j, pos, row, end, parseReal);
      var next := LibsvmParsing.FindFirst(line, {','}, pos).value;
      DenseKeeps(line, j + 1, next + 1, row[j := parseReal(line[pos..next]).value], end, parseReal);
    }
  }

  /** The fields after the last column of a dense loop that succeeds start where the loop
    stops. */
  lemma {:induction false} DenseStops(line: string, j: nat, pos: nat, row: seq<real>, end: nat, parseReal: string -> Option<real>)
    requires pos <= |line| && j <= end == |row|
    requires DenseFrom(line, j, pos, row, end, parseReal).Success?
    ensures var fields := Fields(line, pos);
      var d := DenseFrom(line, j, pos, row, end, parseReal).value;
      |fields| > end - j && Fields(line, d.1) == fields[end - j..]
    decreases end - j
  {
    if j < end {
      DenseStep(line, j, pos, row, end, parseReal);
      var next := LibsvmParsing.FindFirst(line, {','}, pos).value;
      DenseStops(line, j + 1, next + 1, row[j := parseReal(line[pos..next]).value], end, parseReal);
      var rest := Fields(line, next + 1);
      DropAfterFirst([line[pos..next]], rest, end - j);
    }
  }

  /** After a dense loop from field `j` that succeeds, column `j + t` holds field `t`. */
  lemma {:induction false} DenseColumn(line: string, j: nat, pos: nat, row: seq<real>, end: nat, parseReal: string -> Option<real>, t: nat)
    requires pos <= |line| && j <= end == |row| && t < end - j
    requires DenseFrom(line, j, pos, row, end, parseReal).Success?
    ensures var fields := Fields(line, pos);
      t < |fields| && parseReal(fields[t]).Some? &&
      DenseFrom(line, j, pos, row, end, parseReal).value.0[j + t] == parseReal(fields[t]).value
    decreases t
  {
    DenseStep(line, j, pos, row, end, parseReal);
    var fields := Fields(line, pos);
    var next := LibsvmParsing.FindFirst(line, {','}, pos).value;
    var row' := row[j := parseReal(line[pos..next]).value];
    var rest := Fields(line, next + 1);
    if t == 0 {
      DenseKeeps(line, j + 1, next + 1, row', end, parseReal);
    } else {
      DenseColumn(line, j + 1, next + 1, row', end, parseReal, t - 1);
      assert fields[t] == rest[t - 1];
    }
  }

  /** After a dense loop from field `j` that succeeds, the columns before `j` are as they
    were, column `j + t` holds field `t`, and the fields after the last column start where
    the loop stops. */
  lemma DenseValues(line: string, j: nat, pos: nat, row: seq<real>, end: nat, parseReal: string -> Option<real>)
    requires pos <= |line| && j <= end == |row|
    requires DenseFrom(line, j, pos, row, end, parseReal).Success?
    ensures var fields := Fields(line, pos);
      var d := DenseFrom(line, j, pos, row, end, parseReal).value;
      && |fields| > end - j
      && (forall k :: 0 <= k < j ==> d.0[k] == row[k])
      && (forall t :: 0 <= t < end - j ==> parseReal(fields[t]).Some? && d.0[j + t] == parseReal(fields[t]).value)
      && Fields(line, d.1) == fields[end - j..]
  {
    DenseKeeps(line, j, pos, row, end, parseReal);
    DenseStops(line, j, pos, row, end, parseReal);
    forall t | 0 <= t < end - j
      ensures var fields := Fields(line, pos);
        parseReal(fields[t]).Some? &&
        DenseFrom(line, j, pos, row, end, parseReal).value.0[j + t] == parseReal(fields[t]).value
    {
      DenseColumn(line, j, pos, row, end, parseReal, t);
    }
  }

  /** A dense line (one that starts neither with '@' nor with '{') reads exactly when it
    has more comma-separated fields than columns and each of the first `end` fields
    converts, and, in a file with a class, the remaining text converts too. Column `t` then
    holds field `t`; the label is the sign of the remaining text (the fields after the
    columns, joined back by ','), or 0 in a file without a class. */
  lemma DenseLine(line: string, end: nat, hasLabel: bool, parseReal: string -> Option<real>)
    requires !StartsWithChar(line, '@') && !StartsWithChar(line, '{')
    ensures var fields := SplitFrom(line, ',', 0);
      var r := DataLine(line, end, hasLabel, parseReal);
      && (r.Success? <==>
            && |fields| > end && (forall t :: 0 <= t < end ==> parseReal(fields[t]).Some?)
            && (hasLabel ==> parseReal(Join(fields[end..], ',')).Some?))
      && (r.Success? ==>
            && (forall t :: 0 <= t < end ==> r.value.0[t] == parseReal(fields[t]).value)
            && r.value.1 == (if hasLabel then Sign(parseReal(Join(fields[end..], ',')).value) else 0.0))
  {
    DenseLineReads(line, end, hasLabel, parseReal);
    DenseLineValues(line, end, hasLabel, parseReal);
  }

  /** A dense line reads as the dense loop over a zero row followed, in a file with a
    class, by the conversion of the text after it. */
  lemma DenseLineIs(line: string, end: nat, hasLabel: bool, parseReal: string -> Option<real>)
    requires !StartsWithChar(line, '@') && !StartsWithChar(line, '{')
    ensures var d := DenseFrom(line, 0, 0, LibsvmParsing.Zeros(end), end, parseReal);
      var r := DataLine(line, end, hasLabel, parseReal);
      && (r.Success? <==> d.Success? && (hasLabel ==> parseReal(line[d.value.1..]).Some?))
      && (r.Success? ==> r.value == (d.value.0, if hasLabel then Sign(parseReal(line[d.value.1..]).value) else 0.0))
  {
  }

  /** The text after the dense loop is the fields after the columns, joined back by ','. */
  lemma DenseRest(line: string, end: nat, parseReal: string -> Option<real>)
    requires DenseFrom(line, 0, 0, LibsvmParsing.Zeros(end), end, parseReal).Success?
    ensures var d := DenseFrom(line, 0, 0, LibsvmParsing.Zeros(end), end, parseReal).value;
      var fields := SplitFrom(line, ',', 0);
      |fields| > end && Join(fields[end..], ',') == line[d.1..]
  {
    var d := DenseFrom(line, 0, 0, LibsvmParsing.Zeros(end), end, parseReal).value;
    DenseStops(line, 0, 0, LibsvmParsing.Zeros(end), end, parseReal);
    FieldsAreSplit(line, 0);
    FieldsAreSplit(line, d.1);
    SplitFromJoined(line, ',', d.1);
  }

  /** When a dense line reads: the condition on its fields. */
  lemma DenseLineReads(line: string, end: nat, hasLabel: bool, parseReal: string -> Option<real>)
    requires !StartsWithChar(line, '@') && !StartsWithChar(line, '{')
    ensures var fields := SplitFrom(line, ',', 0);
      DataLine(line, end, hasLabel, parseReal).Success? <==>
        && |fields| > end && (forall t :: 0 <= t < end ==> parseReal(fields[t]).Some?)
        && (hasLabel ==> parseReal(Join(fields[end..], ',')).Some?)
  {
    var zeros := LibsvmParsing.Zeros(end);
    DenseLineIs(line, end, hasLabel, parseReal);
    FieldsAreSplit(line, 0);
    DenseSucceeds(line, 0, 0, zeros, end, parseReal);
    if DenseFrom(line, 0, 0, zeros, end, parseReal).Success? {
      DenseRest(line, end, parseReal);
    }
  }

  /** What a dense line that reads holds: its columns and its label. */
  lemma DenseLineValues(line: string, end: nat, hasLabel: bool, parseReal: string -> Option<real>)
    requires !StartsWithChar(line, '@') && !StartsWithChar(line, '{')
    ensures var fields := SplitFrom(line, ',', 0);
      var r := DataLine(line, end, hasLabel, parseReal);
      r.Success? ==>
        && |fields| > end
        && (forall t :: 0 <= t < end ==> parseReal(fields[t]).Some? && r.value.0[t] == parseReal(fields[t]).value)
        && (hasLabel ==> parseReal(Join(fields[end..], ',')).Some?)
        && r.value.1 == (if hasLabel then Sign(parseReal(Join(fields[end..], ',')).value) else 0.0)
  {
    var zeros := LibsvmParsing.Zeros(end);
    DenseLineIs(line, end, hasLabel, parseReal);
    if DataLine(line, end, hasLabel, parseReal).Success? {
      var fields := SplitFrom(line, ',', 0);
      var d := DenseFrom(line, 0, 0, zeros, end, parseReal).value;
      FieldsAreSplit(line, 0);
      DenseRest(line, end, parseReal);
      forall t | 0 <= t < end
        ensures parseReal(fields[t]).Some? && d.0[t] == parseReal(fields[t]).value
      {
        DenseColumn(line, 0, 0, zeros, end, parseReal, t);
      }
    }
  }

  /** The sparse loop sets the label only to 1 or -1, and only together with the flag. */
  lemma {:induction false} SparseLabel(line: string, pos: nat, acc: SparseRead, end: nat, parseReal: string -> Option<real>)
    requires pos <= |line| && EndsWithChar(line, '}') && |acc.row| == end
    requires acc.classSet ==> acc.classValue == 1.0 || acc.classValue == -1.0
    ensures var s := SparseFrom(line, pos, acc, end, parseReal);
      s.Success? ==>
        && (acc.classSet ==> s.value.classSet)
        && (s.value.classSet ==> s.value.classValue == 1.0 || s.value.classValue == -1.0)
        && (!s.value.classSet ==> s.value.classValue == acc.classValue)
    decreases |line| - pos
  {
    var step := SparseStep(line, pos, acc, end, parseReal);
    if step.Success? && step.value.Some? {
      SparseLabel(line, step.value.value.1, step.value.value.0, end, parseReal);
    }
  }

  /** Every data line that reads has a row of `end` values; in a file with a class its
    label is 1 or -1, and a dense line of a file without one has the label 0. */
  lemma DataLineLabel(line: string, end: nat, hasLabel: bool, parseReal: string -> Option<real>)
    requires DataLine(line, end, hasLabel, parseReal).Success?
    ensures var p := DataLine(line, end, hasLabel, parseReal).value;
      && |p.0| == end
      && (hasLabel ==> p.1 == 1.0 || p.1 == -1.0)
      && (!hasLabel && !StartsWithChar(line, '{') ==> p.1 == 0.0)
  {
    if StartsWithChar(line, '{') {
      SparseLabel(line, 1, SparseRead(LibsvmParsing.Zeros(end), 0.0, false), end, parseReal);
    }
  }

  // ---------------------------------------------------------------- the whole file

  /** Every data line's result. */
  function DataResults(lines: seq<string>, first: nat, end: nat, hasLabel: bool, parseReal: string -> Option<real>)
    : (rs: seq<Result<(seq<real>, real), FormatError>>)
    requires first <= |lines|
    ensures |rs| == |lines| - first
  {
    seq(|lines| - first, i requires 0 <= i < |lines| - first => DataLine(lines[first + i], end, hasLabel, parseReal))
  }

  lemma DataResultAt(lines: seq<string>, first: nat, end: nat, hasLabel: bool, parseReal: string -> Option<real>, i: nat)
    requires first + i < |lines|
    ensures DataResults(lines, first, end, hasLabel, parseReal)[i] == DataLine(lines[first + i], end, hasLabel, parseReal)
  {
  }

  /** The data section of a file with header `h`: every line after `@DATA`, the first line
    that fails deciding the error. */
  function ArffData(lines: seq<string>, h: ArffHeader, parseReal: string -> Option<real>)
    : (r: Result<seq<(seq<real>, real)>, FormatError>)
    requires h.dataLine < |lines| && h.numAttributes > 0
    ensures r.Success? ==> |r.value| == |lines| - h.dataLine - 1
  {
    LibsvmParsing.Collect(DataResults(lines, h.dataLine + 1, ColumnEnd(h), h.hasLabel, parseReal))
  }

  function Rows(points: seq<(seq<real>, real)>): (rows: seq<seq<real>>)
    ensures |rows| == |points| && forall i :: 0 <= i < |points| ==> rows[i] == points[i].0
  {
    seq(|points|, i requires 0 <= i < |points| => points[i].0)
  }

  function Labels(points: seq<(seq<real>, real)>): (labels: seq<real>)
    ensures |labels| == |points| && forall i :: 0 <= i < |points| ==> labels[i] == points[i].1
  {
    seq(|points|, i requires 0 <= i < |points| => points[i].1)
  }

  /** `parse_arff` on the lines of a file: the header, its checks, then the data section. */
  function ReadArff(lines: seq<string>, parseReal: string -> Option<real>)
    : (r: Result<(ArffHeader, seq<seq<real>>, seq<real>), FormatError>)
  {
    var h := HeaderFrom(lines, 0, 0, false);
    if h.Failure? then Failure(h.error)
    else if h.value.numAttributes == 0 then Failure(NoAttributes)
    else if h.value.dataLine == |lines| then Failure(NoDataSection)
    else
      var points := ArffData(lines, h.value, parseReal);
      if points.Failure? then Failure(points.error)
      else Success((h.value, Rows(points.value), Labels(points.value)))
  }

  /** Data line `first + i`, read as the data loop reads it. */
  method ReadDataAt(lines: seq<string>, first: nat, end: nat, hasLabel: bool, parseReal: string -> Option<real>, i: nat)
    returns (p: Result<(seq<real>, real), FormatError>)
    requires first + i < |lines|
    ensures p == DataResults(lines, first, end, hasLabel, parseReal)[i]
  {
    p := ReadDataLine(lines[first + i], end, hasLabel, parseReal);
    DataResultAt(lines, first, end, hasLabel, parseReal, i);
  }

  /** The data loop of `parse_arff`: each line's row and label written into arrays of one
    entry per data line. */
  method ReadDataSection(lines: seq<string>, h: ArffHeader, parseReal: string -> Option<real>)
    returns (r: Outcome<FormatError>, data: array<seq<real>>, values: array<real>)
    requires h.dataLine < |lines| && h.numAttributes > 0
    ensures r.Fail? ==> ArffData(lines, h, parseReal) == Failure(r.error)
    ensures r.Pass? ==>
      && ArffData(lines, h, parseReal).Success?
      && data[..] == Rows(ArffData(lines, h, parseReal).value)
      && values[..] == Labels(ArffData(lines, h, parseReal).value)
  {
    r, data, values := ReadDataRows(lines, h.dataLine + 1, ColumnEnd(h), h.hasLabel, parseReal);
  }

  /** The loop of `ReadDataSection` over the lines from `first` on. */
  method ReadDataRows(lines: seq<string>, first: nat, end: nat, hasLabel: bool, parseReal: string -> Option<real>)
    returns (r: Outcome<FormatError>, data: array<seq<real>>, values: array<real>)
    requires first <= |lines|
    ensures r.Fail? ==> LibsvmParsing.Collect(DataResults(lines, first, end, hasLabel, parseReal)) == Failure(r.error)
    ensures r.Pass? ==>
      && LibsvmParsing.Collect(DataResults(lines, first, end, hasLabel, parseReal)).Success?
      && data[..] == Rows(LibsvmParsing.Collect(DataResults(lines, first, end, hasLabel, parseReal)).value)
      && values[..] == Labels(LibsvmParsing.Collect(DataResults(lines, first, end, hasLabel, parseReal)).value)
  {
    data := new seq<real>[|lines| - first](_ => LibsvmParsing.Zeros(end));
    values := new real[|lines| - first](_ => 0.0);
    ghost var rs := DataResults(lines, first, end, hasLabel, parseReal);
    ghost var points: seq<(seq<real>, real)> := [];
    for i := 0 to data.Length
      invariant |points| == i
      invariant LibsvmParsing.Collect(rs[..i]) == Success(points)
      invariant forall k :: 0 <= k < i ==> data[k] == points[k].0 && values[k] == points[k].1
    {
      var p := ReadDataAt(lines, first, end, hasLabel, parseReal, i);
      LibsvmParsing.CollectSnoc(rs, i);
      if p.Failure? {
        LibsvmParsing.CollectFailed(rs, i + 1);
        return Fail(p.error), data, values;
      }
      data[i], values[i] := p.value.0, p.value.1;
      points := points + [p.value];
    }
    assert rs[..data.Length] == rs;
    RowsAndLabels(points, data[..], values[..]);
    return Pass, data, values;
  }

  /** Rows and labels stored entry by entry are the rows and labels of the points. */
  lemma RowsAndLabels(points: seq<(seq<real>, real)>, rows: seq<seq<real>>, labels: seq<real>)
    requires |rows| == |labels| == |points|
    requires forall k :: 0 <= k < |points| ==> rows[k] == points[k].0 && labels[k] == points[k].1
    ensures rows == Rows(points) && labels == Labels(points)
  {
  }

  /** `parse_arff`: the header loop, its checks, then the data loop. */
  method ParseArff(lines: seq<string>, parseReal: string -> Option<real>)
    returns (r: Result<ArffHeader, FormatError>, data: array<seq<real>>, values: array<real>)
    ensures r.Failure? ==> ReadArff(lines, parseReal) == Failure(r.error)
    ensures r.Success? ==> ReadArff(lines, parseReal) == Success((r.value, data[..], values[..]))
  {
    data, values := new seq<real>[0], new real[0];
    r := ScanArffHeader(lines);
    if r.Failure? {
      return;
    }
    var h := r.value;
    if h.numAttributes == 0 {
      return Failure(NoAttributes), data, values;
    }
    if h.dataLine == |lines| {
      return Failure(NoDataSection), data, values;
    }
    var outcome;
    outcome, data, values := ReadDataSection(lines, h, parseReal);
    if outcome.Fail? {
      return Failure(outcome.error), data, values;
    }
  }

  /** What the header of a file that reads holds: one attribute per `@ATTRIBUTE` line
    before the first `@DATA` line, each of them NUMERIC; a class exactly when one of them
    names CLASS, and then that one is the last. */
  lemma ArffHeaderFacts(lines: seq<string>)
    requires HeaderFrom(lines, 0, 0, false).Success?
    ensures var h := HeaderFrom(lines, 0, 0, false).value;
      && (h.dataLine < |lines| ==> HeaderKeyOf(HeaderLine(lines, h.dataLine)) == DataKey)
      && (forall j :: 0 <= j < h.dataLine ==> HeaderKeyOf(HeaderLine(lines, j)) != DataKey)
      && (forall j :: 0 <= j < h.dataLine && IsAttribute(lines, j) ==> Contains(HeaderLine(lines, j), "NUMERIC"))
      && h.numAttributes == CountAttributes(lines, 0, h.dataLine)
      && (h.hasLabel <==> ClassBetween(lines, 0, h.dataLine))
      && (forall j, j' :: 0 <= j < j' < h.dataLine && IsAttribute(lines, j) && IsAttribute(lines, j') ==>
            !Contains(HeaderLine(lines, j), "CLASS"))
  {
    HeaderStops(lines, 0, 0, false);
    HeaderCounts(lines, 0, 0, false);
    HeaderLabel(lines, 0, 0, false);
    HeaderClassLast(lines, 0, 0, false);
  }

  /** Every data point of a file that reads has one value per attribute but the class, and
    its label is 1 or -1 when there is a class. */
  lemma ArffPoints(lines: seq<string>, h: ArffHeader, parseReal: string -> Option<real>)
    requires h.dataLine < |lines| && h.numAttributes > 0
    requires ArffData(lines, h, parseReal).Success?
    ensures var points := ArffData(lines, h, parseReal).value;
      && (forall i :: 0 <= i < |points| ==> |points[i].0| == ColumnEnd(h))
      && (h.hasLabel ==> forall i :: 0 <= i < |points| ==> points[i].1 == 1.0 || points[i].1 == -1.0)
  {
    var rs := DataResults(lines, h.dataLine + 1, ColumnEnd(h), h.hasLabel, parseReal);
    LibsvmParsing.CollectSucceeds(rs);
    var points := LibsvmParsing.Collect(rs).value;
    forall i | 0 <= i < |points|
      ensures |points[i].0| == ColumnEnd(h) && (h.hasLabel ==> points[i].1 == 1.0 || points[i].1 == -1.0)
    {
      assert rs[i] == Success(points[i]);
      DataResultAt(lines, h.dataLine + 1, ColumnEnd(h), h.hasLabel, parseReal, i);
      DataLineLabel(lines[h.dataLine + 1 + i], ColumnEnd(h), h.hasLabel, parseReal);
    }
  }

  /** A data section that fails fails with the error of its first data line that does. */
  lemma ArffFirstError(lines: seq<string>, h: ArffHeader, parseReal: string -> Option<real>)
    requires h.dataLine < |lines| && h.numAttributes > 0
    requires ArffData(lines, h, parseReal).Failure?
    ensures exists i ::
      && h.dataLine < i < |lines|
      && DataLine(lines[i], ColumnEnd(h), h.hasLabel, parseReal) == Failure(ArffData(lines, h, parseReal).error)
      && forall k :: h.dataLine < k < i ==> DataLine(lines[k], ColumnEnd(h), h.hasLabel, parseReal).Success?
  {
    var first := h.dataLine + 1;
    var rs := DataResults(lines, first, ColumnEnd(h), h.hasLabel, parseReal);
    LibsvmParsing.CollectFails(rs);
    var i :| 0 <= i < |rs| && rs[i] == Failure(LibsvmParsing.Collect(rs).error) && forall j :: 0 <= j < i ==> rs[j].Success?;
    forall k | first <= k < first + i
      ensures DataLine(lines[k], ColumnEnd(h), h.hasLabel, parseReal).Success?
    {
      assert rs[k - first].Success?;
      DataResultAt(lines, first, ColumnEnd(h), h.hasLabel, parseReal, k - first);
    }
    DataResultAt(lines, first, ColumnEnd(h), h.hasLabel, parseReal, i);
  }

  // ---------------------------------------------------------------- findings

  /** The width `parse_arff` gives each row: one less than the attributes, whether or not
    the last attribute is the class. */
  function RowWidthAsWritten(h: ArffHeader): int {
    h.numAttributes - 1
  }

  /** Without a class every attribute is a column, one more than the row as written has;
    the dense line "1," of a file with one attribute and no class reads into column 0 of
    rows that have no column. */
  lemma UnlabelledWidthAsWritten(parseReal: string -> Option<real>)
    requires parseReal("1").Some?
    ensures var h := ArffHeader(1, false, 1);
      && RowWidthAsWritten(h) == 0
      && DataLine("1,", ColumnEnd(h), false, parseReal) == Success(([parseReal("1").value], 0.0))
  {
    var line := "1,";
    var v := parseReal("1").value;
    assert line[0..1] == "1";
    assert LibsvmParsing.FindFirst(line, {','}, 0) == Some(1);
    assert LibsvmParsing.Zeros(1)[0 := v] == [v];
    assert DenseFrom(line, 0, 0, LibsvmParsing.Zeros(1), 1, parseReal) == DenseFrom(line, 1, 2, [v], 1, parseReal);
  }

  /** The column `parse_arff` writes for the sparse pair at `pos`: any index that is not
    the class index, unchecked. */
  function SparseColumnAsWritten(line: string, pos: nat, end: nat): (r: Option<nat>)
    requires pos <= |line|
    ensures r.Some? ==> r.value != end
  {
    var space := LibsvmParsing.FindFirst(line, {' '}, pos);
    if space.None? then None
    else
      var index := LibsvmParsing.LibraryIndex(line[pos..space.value]);
      if index.Failure? || index.value == end then None else Some(index.value)
  }

  /** The sparse line "{3 1}" with two columns makes the source write column 3; the model
    rejects it. */
  lemma SparseIndexExample(parseReal: string -> Option<real>)
    ensures SparseColumnAsWritten("{3 1}", 1, 2) == Some(3)
    ensures SparseStep("{3 1}", 1, SparseRead(LibsvmParsing.Zeros(2), 0.0, false), 2, parseReal)
      == Failure(SparseIndexOutOfRange(3, 2))
  {
    var line := "{3 1}";
    assert LibsvmParsing.FindFirst(line, {' '}, 1) == Some(2);
    assert line[1..2] == Spaces(0) + Render(3) + "";
    LibsvmParsing.IndexRoundTrip(0, 3, "");
    BraceAhead(line, 3);
  }

  /** Every value a sparse line writes lands inside its row, and an index past the class
    index is an error. */
  lemma SparseInRange(line: string, pos: nat, acc: SparseRead, end: nat, parseReal: string -> Option<real>)
    requires pos <= |line| && EndsWithChar(line, '}') && |acc.row| == end
    ensures var c := SparseColumnAsWritten(line, pos, end);
      c.Some? ==> (c.value < end <==> SparseStep(line, pos, acc, end, parseReal) != Failure(SparseIndexOutOfRange(c.value, end)))
  {
  }
}
