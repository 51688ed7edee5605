/** Reading LIBSVM data files (libsvm_parsing.hpp): the scan for the number of features
  and the per-line parse of an optional label and `index:value` pairs.

  A line such as `-1 1:0.5 3:2.0` holds a label and features with one-based, strictly
  increasing indices. The file reader's lines are a `seq<string>`; the label and value
  conversions the library delegates to other code are parameters. */
module LibsvmParsing {
  import opened Wrappers
  import opened StringUtility

  /** `std::numeric_limits<unsigned long>::max()` on an LP64 platform. */
  const ULONG_MAX: nat := 0xFFFF_FFFF_FFFF_FFFF

  const INDEX_TYPE: string := "unsigned long"

  /** The exceptions `parse_libsvm_data` can throw. */
  datatype ParseError =
    | BadIndex(conversion: ConversionError)      // a feature index is not an `unsigned long`
    | BadLabel(labelText: string)                // the label conversion failed
    | BadValue(valueText: string)                // the feature value conversion failed
    | NoDataPoints                               // no feature index was found at all
    | ZeroBasedIndex                             // an index of 0 (LIBSVM is one-based)
    | NotIncreasing(index: nat, last: nat)       // indices must be strictly increasing
    | IndexAboveFeatureCount(index: nat, numFeatures: nat)
    | InconsistentLabels                         // some lines labelled, others not

  /** Errors one line can cause: never the file-level ones. */
  predicate LineError(e: ParseError) {
    !e.NoDataPoints? && !e.InconsistentLabels?
  }

  // ---------------------------------------------------------------- searching

  /** `find_first_of(cs, from)`: the first index at or after `from` holding a character of `cs`. */
  function FindFirst(s: string, cs: set<char>, from: nat): (r: Option<nat>)
    requires from <= |s|
    ensures r.Some? ==> from <= r.value < |s| && s[r.value] in cs
    decreases |s| - from
  {
    if from == |s| then None
    else if s[from] in cs then Some(from)
    else FindFirst(s, cs, from + 1)
  }

  /** No character of `cs` lies between `from` and the index `FindFirst` reports. */
  lemma {:induction false} FindFirstSkips(s: string, cs: set<char>, from: nat)
    requires from <= |s|
    ensures forall k :: from <= k < |s| && (FindFirst(s, cs, from).None? || k < FindFirst(s, cs, from).value) ==>
      s[k] !in cs
    decreases |s| - from
  {
    if from < |s| && s[from] !in cs {
      FindFirstSkips(s, cs, from + 1);
    }
  }

  /** `find_last_of(c)` restricted to indices below `bound`. */
  function FindLast(s: string, c: char, bound: nat): (r: Option<nat>)
    requires bound <= |s|
    ensures r.Some? ==> r.value < bound && s[r.value] == c
    ensures forall k :: 0 <= k < bound && (r.None? || r.value < k) ==> s[k] != c
  {
    if bound == 0 then None
    else if s[bound - 1] == c then Some(bound - 1)
    else FindLast(s, c, bound - 1)
  }

  /** Position comparison where npos (`None`) is larger than every index. */
  predicate NotBefore(a: Option<nat>, b: Option<nat>) {
    a.None? || (b.Some? && a.value >= b.value)
  }

  // ---------------------------------------------------------------- number of features

  /** What one line contributes to the feature count: `None` for a line without ':',
    otherwise the converted index or the conversion error. */
  type LineIndex = Option<Result<nat, ConversionError>>

  /** A conversion of an index text; the library's is `LibraryIndex`. */
  type IndexConversion = string -> Result<nat, ConversionError>

  /** `convert_to<unsigned long>` on a feature index. */
  function LibraryIndex(text: string): (r: Result<nat, ConversionError>)
    ensures r.Success? ==> r.value <= ULONG_MAX
  {
    var index := ParseIntegral(text, 0, ULONG_MAX, INDEX_TYPE);
    if index.Success? then Success(index.value as nat) else Failure(index.error)
  }

  /** A space-padded decimal index followed by anything but a digit converts back to it. */
  lemma IndexRoundTrip(n: nat, v: nat, rest: string)
    requires v <= ULONG_MAX && (rest == [] || !IsDigit(rest[0]))
    ensures LibraryIndex(Spaces(n) + Render(v) + rest) == Success(v)
  {
    ConvertRoundTrip(n, v, rest, 0, ULONG_MAX, INDEX_TYPE);
  }

  /** The index in front of the last ':' of a line, read from the last space before that
    colon (or from the start of the line when there is none). */
  function LastFeatureIndex(line: string, toIndex: IndexConversion): LineIndex {
    match FindLast(line, ':', |line|)
    case None => None
    case Some(colon) =>
      var space := FindLast(line, ' ', colon);
      var start := if space.Some? then space.value else 0;
      Some(toIndex(line[start..colon]))
  }

  function LineIndices(lines: seq<string>, toIndex: IndexConversion): (ix: seq<LineIndex>)
    ensures |ix| == |lines| && forall j :: 0 <= j < |lines| ==> ix[j] == LastFeatureIndex(lines[j], toIndex)
  {
    seq(|lines|, j requires 0 <= j < |lines| => LastFeatureIndex(lines[j], toIndex))
  }

  function Max(a: nat, b: nat): nat {
    if a < b then b else a
  }

  /** The running maximum `acc` combined with the result for the remaining lines. */
  function Merge(acc: nat, r: Result<nat, ConversionError>): Result<nat, ConversionError> {
    if r.Failure? then r else Success(Max(acc, r.value))
  }

  /** The largest index in `ix[i..]`; the first line whose index does not convert decides
    the error. */
  function MaxIndexFrom(ix: seq<LineIndex>, i: nat): Result<nat, ConversionError>
    decreases |ix| - i
  {
    if i >= |ix| then Success(0)
    else
      var rest := MaxIndexFrom(ix, i + 1);
      match ix[i]
      case None => rest
      case Some(Failure(e)) => Failure(e)
      case Some(Success(k)) => Merge(k, rest)
  }

  /** The result of `parse_libsvm_num_features(lines, skipped_lines)`. */
  function NumFeatures(lines: seq<string>, skipped: nat, toIndex: IndexConversion): Result<nat, ConversionError> {
    MaxIndexFrom(LineIndices(lines, toIndex), skipped)
  }

  /** The scan of one line, with the library's conversion. */
  method LineFeatureIndex(line: string, toIndex: IndexConversion) returns (r: LineIndex)
    ensures r == LastFeatureIndex(line, toIndex)
  {
    var colon := FindLast(line, ':', |line|);
    if colon.None? {
      return None;
    }
    var space := FindLast(line, ' ', colon.value);
    var start := if space.Some? then space.value else 0;
    return Some(toIndex(line[start..colon.value]));
  }

  /** `parse_libsvm_num_features(lines, skipped_lines)`: a maximum over the lines from
    `skipped_lines` on. */
  method ParseNumFeatures(lines: seq<string>, skipped: nat, toIndex: IndexConversion) returns (r: Result<nat, ConversionError>)
    ensures r == NumFeatures(lines, skipped, toIndex)
  {
    ghost var ix := LineIndices(lines, toIndex);
    var numFeatures: nat := 0;
    var i := skipped;
    while i < |lines|
      invariant skipped <= i
      invariant MaxIndexFrom(ix, skipped) == Merge(numFeatures, MaxIndexFrom(ix, i))
      decreases |lines| - i
    {
      var index := LineFeatureIndex(lines[i], toIndex);
      if index.Some? {
        if index.value.Failure? {
          return Failure(index.value.error);
        }
        numFeatures := Max(numFeatures, index.value.value);
      }
      i := i + 1;
    }
    return Success(numFeatures);
  }

  /** The number of features bounds every line's index and is reached by one of them (or
    is 0). */
  lemma {:induction false} MaxIndexIsMax(ix: seq<LineIndex>, i: nat)
    requires MaxIndexFrom(ix, i).Success?
    ensures forall j :: i <= j < |ix| && ix[j].Some? ==>
      ix[j].value.Success? && ix[j].value.value <= MaxIndexFrom(ix, i).value
    ensures MaxIndexFrom(ix, i).value == 0 ||
      exists j :: i <= j < |ix| && ix[j] == Some(Success(MaxIndexFrom(ix, i).value))
    decreases |ix| - i
  {
    if i < |ix| {
      MaxIndexIsMax(ix, i + 1);
    }
  }

  /** The scan fails exactly when some line's index does not convert. */
  lemma {:induction false} MaxIndexFails(ix: seq<LineIndex>, i: nat)
    ensures MaxIndexFrom(ix, i).Failure? <==>
      exists j :: i <= j < |ix| && ix[j].Some? && ix[j].value.Failure?
    decreases |ix| - i
  {
    if i < |ix| {
      MaxIndexFails(ix, i + 1);
    }
  }

  /** Lines without ':' contribute nothing: with none at all the count is 0. */
  lemma {:induction false} MaxIndexNoColon(ix: seq<LineIndex>, i: nat)
    requires forall j :: i <= j < |ix| ==> ix[j].None?
    ensures MaxIndexFrom(ix, i) == Success(0)
    decreases |ix| - i
  {
    if i < |ix| {
      MaxIndexNoColon(ix, i + 1);
    }
  }

  /** Lines before `skipped` do not take part. */
  lemma {:induction false} MaxIndexSkips(ix: seq<LineIndex>, skipped: nat, i: nat)
    requires skipped <= |ix|
    ensures MaxIndexFrom(ix, skipped + i) == MaxIndexFrom(ix[skipped..], i)
    decreases |ix| - skipped - i
  {
    if skipped + i < |ix| {
      MaxIndexSkips(ix, skipped, i + 1);
      assert ix[skipped..][i] == ix[skipped + i];
    }
  }

  /** A positive count needs a line after the skipped ones. */
  lemma NumFeaturesPositive(lines: seq<string>, skipped: nat, toIndex: IndexConversion)
    requires NumFeatures(lines, skipped, toIndex).Success? && NumFeatures(lines, skipped, toIndex).value > 0
    ensures skipped < |lines|
  {
    MaxIndexIsMax(LineIndices(lines, toIndex), skipped);
  }

  /** The count of `lines` after skipping is the count of the remaining lines. */
  lemma NumFeaturesSkips(lines: seq<string>, skipped: nat, toIndex: IndexConversion)
    requires skipped <= |lines|
    ensures NumFeatures(lines, skipped, toIndex) == NumFeatures(lines[skipped..], 0, toIndex)
  {
    MaxIndexSkips(LineIndices(lines, toIndex), skipped, 0);
    assert LineIndices(lines, toIndex)[skipped..] == LineIndices(lines[skipped..], toIndex);
  }

  // ---------------------------------------------------------------- one line

  /** A feature as stored: zero-based column and value. */
  type Entry = (nat, real)

  /** The conversions the loop applies to an index and to a value text. */
  datatype Converters = Converters(index: IndexConversion, value: string -> Option<real>)

  /** The library's index conversion yields an `unsigned long`. */
  ghost predicate IndexBounded(conv: Converters) {
    forall t :: conv.index(t).Success? ==> conv.index(t).value <= ULONG_MAX
  }

  /** One turn of the `index:value` loop. */
  datatype Step =
    | End                                        // no ':' after the cursor: the loop breaks
    | Stop(error: ParseError)                    // the turn throws
    | Feature(entry: Entry, next: Option<nat>)   // the feature read and the next cursor (npos: `None`)

  /** The turn at cursor `pos` with previous one-based index `last`: the index runs up to
    the next ':' and must be non-zero, larger than `last` and at most `limit`; the value
    runs from that colon to the next space, which becomes the new cursor. */
  function EntryStep(line: string, pos: nat, last: nat, limit: nat, conv: Converters): (s: Step)
    requires pos <= |line|
    ensures s.Feature? ==> last <= s.entry.0 < limit
    ensures s.Stop? ==> LineError(s.error) && !s.error.BadLabel?
    ensures s.Feature? && s.next.Some? ==> pos < s.next.value < |line| && line[s.next.value] == ' '
  {
    match FindFirst(line, {':'}, pos)
    case None => End
    case Some(colon) =>
      var index := conv.index(line[pos..colon]);
      if index.Failure? then Stop(BadIndex(index.error))
      else if index.value == 0 then Stop(ZeroBasedIndex)
      else if last >= index.value then Stop(NotIncreasing(index.value, last))
      else if index.value > limit then Stop(IndexAboveFeatureCount(index.value, limit))
      else
        var space := FindFirst(line, {' '}, colon + 1);
        var end := if space.Some? then space.value else |line|;
        var value := conv.value(line[colon + 1..end]);
        if value.None? then Stop(BadValue(line[colon + 1..end]))
        else Feature(((index.value - 1) as nat, value.value), space)
  }

  /** A turn that finds a ':' at `colon`, an index in range in front of it and a value that
    converts up to the space at `space` reads that feature and moves to the space. */
  lemma EntryStepReads(line: string, pos: nat, last: nat, limit: nat, conv: Converters, colon: nat, index: nat, space: nat)
    requires pos <= |line| && FindFirst(line, {':'}, pos) == Some(colon)
    requires conv.index(line[pos..colon]) == Success(index) && last < index <= limit
    requires FindFirst(line, {' '}, colon + 1) == Some(space) && conv.value(line[colon + 1..space]).Some?
    ensures EntryStep(line, pos, last, limit, conv)
      == Feature(((index - 1) as nat, conv.value(line[colon + 1..space]).value), Some(space))
  {
  }

  /** The feature loop ends exactly when no ':' is left after the cursor. */
  lemma EntryStepEnds(line: string, pos: nat, last: nat, limit: nat, conv: Converters)
    requires pos <= |line|
    ensures EntryStep(line, pos, last, limit, conv).End? <==> forall k :: pos <= k < |line| ==> line[k] != ':'
  {
    FindFirstSkips(line, {':'}, pos);
  }

  /** The features read by the loop from cursor `pos` on, or the first error. */
  function Entries(line: string, pos: nat, last: nat, limit: nat, conv: Converters)
    : Result<seq<Entry>, ParseError>
    requires pos <= |line|
    decreases |line| - pos
  {
    match EntryStep(line, pos, last, limit, conv)
    case End => Success([])
    case Stop(e) => Failure(e)
    case Feature(entry, None) => Success([entry])
    case Feature(entry, Some(next)) => Prefixed([entry], Entries(line, next, entry.0 + 1, limit, conv))
  }

  function Prefixed(done: seq<Entry>, r: Result<seq<Entry>, ParseError>): Result<seq<Entry>, ParseError> {
    if r.Failure? then r else Success(done + r.value)
  }

  predicate Increasing(es: seq<Entry>) {
    forall a, b :: 0 <= a < b < |es| ==> es[a].0 < es[b].0
  }

  predicate ColumnsBelow(es: seq<Entry>, n: nat) {
    forall k :: 0 <= k < |es| ==> es[k].0 < n
  }

  /** Each column at least `first` (one past the previous column) and below `limit`. */
  predicate WellFormedFrom(es: seq<Entry>, first: nat, limit: nat) {
    es == [] || (first <= es[0].0 < limit && WellFormedFrom(es[1..], es[0].0 + 1, limit))
  }

  /** Well-formed entries have strictly increasing columns, none below `first` and all
    below `limit`. */
  lemma {:induction false} WellFormedMeans(es: seq<Entry>, first: nat, limit: nat)
    requires WellFormedFrom(es, first, limit)
    ensures Increasing(es) && ColumnsBelow(es, limit) && forall k :: 0 <= k < |es| ==> first <= es[k].0
  {
    if es != [] {
      var tail := es[1..];
      WellFormedMeans(tail, es[0].0 + 1, limit);
      assert forall k :: 0 < k < |es| ==> es[k] == tail[k - 1];
    }
  }

  lemma PrefixedWellFormed(entry: Entry, rest: Result<seq<Entry>, ParseError>, first: nat, limit: nat)
    requires first <= entry.0 < limit
    requires rest.Success? ==> WellFormedFrom(rest.value, entry.0 + 1, limit)
    ensures Prefixed([entry], rest).Success? ==> WellFormedFrom(Prefixed([entry], rest).value, first, limit)
  {
    if rest.Success? {
      assert ([entry] + rest.value)[1..] == rest.value;
    }
  }

  /** Parsed features have strictly increasing columns, none below `last` (the previous
    one-based index is the first free zero-based column) and all below `limit`. */
  lemma {:induction false} EntriesWellFormed(line: string, pos: nat, last: nat, limit: nat, conv: Converters)
    requires pos <= |line|
    requires Entries(line, pos, last, limit, conv).Success?
    ensures WellFormedFrom(Entries(line, pos, last, limit, conv).value, last, limit)
    decreases |line| - pos
  {
    var s := EntryStep(line, pos, last, limit, conv);
    EntriesStep(line, pos, last, limit, conv);
    if s.Feature? && s.next.Some? {
      var rest := Entries(line, s.next.value, s.entry.0 + 1, limit, conv);
      if rest.Success? {
        EntriesWellFormed(line, s.next.value, s.entry.0 + 1, limit, conv);
      }
      PrefixedWellFormed(s.entry, rest, last, limit);
    } else if s.Feature? {
      assert [s.entry][1..] == [];
    }
  }

  /** With the largest possible `limit` the bound check never fires: a turn at `ULONG_MAX`
    is the turn exactly as the library writes it. */
  lemma StepUnlimited(line: string, pos: nat, last: nat, conv: Converters)
    requires pos <= |line| && IndexBounded(conv)
    ensures !EntryStep(line, pos, last, ULONG_MAX, conv).Stop? ||
      !EntryStep(line, pos, last, ULONG_MAX, conv).error.IndexAboveFeatureCount?
  {
  }

  /** Hence a loop at `ULONG_MAX` never reports an index above the feature count. */
  lemma {:induction false} EntriesUnlimited(line: string, pos: nat, last: nat, conv: Converters)
    requires pos <= |line| && IndexBounded(conv)
    ensures !Entries(line, pos, last, ULONG_MAX, conv).Failure? ||
      !Entries(line, pos, last, ULONG_MAX, conv).error.IndexAboveFeatureCount?
    decreases |line| - pos
  {
    StepUnlimited(line, pos, last, conv);
    match EntryStep(line, pos, last, ULONG_MAX, conv)
    case End =>
    case Stop(e) =>
    case Feature(entry, None) =>
    case Feature(entry, Some(next)) =>
      EntriesUnlimited(line, next, entry.0 + 1, conv);
  }

  /** A line carries a label iff its first ':' (or newline) is not before its first space
    (or newline); npos counts as past the end, so a line with neither is a bare label. */
  function LabelSeparator(line: string): (r: Option<Option<nat>>)
    ensures r.Some? <==> NotBefore(FindFirst(line, {':', '\n'}, 0), FindFirst(line, {' ', '\n'}, 0))
    ensures r.Some? ==> r.value == FindFirst(line, {' ', '\n'}, 0)
  {
    var sep := FindFirst(line, {' ', '\n'}, 0);
    var colon := FindFirst(line, {':', '\n'}, 0);
    if NotBefore(colon, sep) then Some(sep) else None
  }

  /** The features from cursor `pos`, none when the cursor is npos. */
  function FeaturesFrom(line: string, pos: Option<nat>, limit: nat, conv: Converters)
    : Result<seq<Entry>, ParseError>
    requires pos.Some? ==> pos.value <= |line|
  {
    if pos.None? then Success([]) else Entries(line, pos.value, 0, limit, conv)
  }

  /** The label of a line, if it has one, and the cursor where its features start: the
    label is the text before the separator (the whole line when there is none) and the
    features start at the separator; an unlabelled line's features start at 0. */
  function LabelPart<L>(line: string, parseLabel: string -> Option<L>): (r: Result<(Option<L>, Option<nat>), ParseError>)
    ensures r.Success? ==> (r.value.0.Some? <==> LabelSeparator(line).Some?)
    ensures r.Success? && r.value.1.Some? ==> r.value.1.value <= |line|
    ensures r.Failure? ==> LabelSeparator(line).Some? && r.error.BadLabel?
  {
    match LabelSeparator(line)
    case Some(sep) =>
      var labelText := if sep.Some? then line[..sep.value] else line;
      var parsed := parseLabel(labelText);
      if parsed.None? then Failure(BadLabel(labelText)) else Success((Some(parsed.value), sep))
    case None => Success((None, Some(0)))
  }

  /** The parse of one line: its label, if it has one, and its features. */
  datatype LineParse<L> = LineParse(classLabel: Option<L>, entries: seq<Entry>)

  function ParseLineSpec<L>(line: string, limit: nat, parseLabel: string -> Option<L>, conv: Converters)
    : Result<LineParse<L>, ParseError>
  {
    var lp := LabelPart(line, parseLabel);
    if lp.Failure? then Failure(lp.error)
    else
      var es := FeaturesFrom(line, lp.value.1, limit, conv);
      if es.Failure? then Failure(es.error) else Success(LineParse(lp.value.0, es.value))
  }

  /** The features from any cursor are strictly increasing columns below the limit. */
  lemma FeaturesWellFormed(line: string, pos: Option<nat>, limit: nat, conv: Converters)
    requires pos.Some? ==> pos.value <= |line|
    requires FeaturesFrom(line, pos, limit, conv).Success?
    ensures Increasing(FeaturesFrom(line, pos, limit, conv).value)
    ensures ColumnsBelow(FeaturesFrom(line, pos, limit, conv).value, limit)
  {
    if pos.Some? {
      EntriesWellFormed(line, pos.value, 0, limit, conv);
      WellFormedMeans(FeaturesFrom(line, pos, limit, conv).value, 0, limit);
    }
  }

  /** The features of a parsed line are strictly increasing columns below the limit. */
  lemma EntriesColumns<L>(line: string, limit: nat, parseLabel: string -> Option<L>, conv: Converters)
    requires ParseLineSpec(line, limit, parseLabel, conv).Success?
    ensures Increasing(ParseLineSpec(line, limit, parseLabel, conv).value.entries)
    ensures ColumnsBelow(ParseLineSpec(line, limit, parseLabel, conv).value.entries, limit)
  {
    FeaturesWellFormed(line, LabelPart(line, parseLabel).value.1, limit, conv);
  }

  // ---------------------------------------------------------------- rows

  function Zeros(n: nat): (z: seq<real>)
    ensures |z| == n && forall j :: 0 <= j < n ==> z[j] == 0.0
  {
    seq(n, _ => 0.0)
  }

  /** The row after writing the entries in order (an entry outside the row is not
    written: the parse never yields one). */
  function Apply(row: seq<real>, es: seq<Entry>): (r: seq<real>)
    ensures |r| == |row|
  {
    if es == [] then row
    else
      var e := es[|es| - 1];
      var init := Apply(row, es[..|es| - 1]);
      if e.0 < |row| then init[e.0 := e.1] else init
  }

  /** With distinct columns each entry's value ends up in its column, and every other cell
    keeps its value. */
  lemma {:induction false} ApplyCells(row: seq<real>, es: seq<Entry>)
    requires ColumnsBelow(es, |row|) && Increasing(es)
    ensures forall k :: 0 <= k < |es| ==> Apply(row, es)[es[k].0] == es[k].1
    ensures forall j :: 0 <= j < |row| && (forall k :: 0 <= k < |es| ==> es[k].0 != j) ==> Apply(row, es)[j] == row[j]
  {
    if es != [] {
      ApplyCells(row, es[..|es| - 1]);
    }
  }

  /** The row of `numFeatures` values the features from cursor `pos` produce. */
  function RowFrom(line: string, pos: Option<nat>, numFeatures: nat, conv: Converters): (r: Result<seq<real>, ParseError>)
    requires pos.Some? ==> pos.value <= |line|
    ensures r.Success? ==> |r.value| == numFeatures
  {
    var es := FeaturesFrom(line, pos, numFeatures, conv);
    if es.Failure? then Failure(es.error) else Success(Apply(Zeros(numFeatures), es.value))
  }

  /** One parsed line: its label and its row of `numFeatures` values. */
  datatype ParsedLine<L> = ParsedLine(classLabel: Option<L>, row: seq<real>)

  function LineResult<L>(line: string, numFeatures: nat, parseLabel: string -> Option<L>, conv: Converters)
    : (r: Result<ParsedLine<L>, ParseError>)
    ensures r.Failure? ==> LineError(r.error)
  {
    var lp := LabelPart(line, parseLabel);
    if lp.Failure? then Failure(lp.error)
    else
      var row := RowFrom(line, lp.value.1, numFeatures, conv);
      assert row.Failure? ==> LineError(row.error) by {
        if lp.value.1.Some? {
          EntriesErrors(line, lp.value.1.value, 0, numFeatures, conv);
        }
      }
      if row.Failure? then Failure(row.error) else Success(ParsedLine(lp.value.0, row.value))
  }

  /** A line parses iff its label and features do; its row holds each feature's value in
    its column and 0 everywhere else. */
  lemma RowCells<L>(line: string, numFeatures: nat, parseLabel: string -> Option<L>, conv: Converters)
    ensures LineResult(line, numFeatures, parseLabel, conv).Success? <==> ParseLineSpec(line, numFeatures, parseLabel, conv).Success?
    ensures LineResult(line, numFeatures, parseLabel, conv).Failure? ==>
      LineResult(line, numFeatures, parseLabel, conv).error == ParseLineSpec(line, numFeatures, parseLabel, conv).error
    ensures LineResult(line, numFeatures, parseLabel, conv).Success? ==>
      var p := ParseLineSpec(line, numFeatures, parseLabel, conv).value;
      var row := LineResult(line, numFeatures, parseLabel, conv).value.row;
      LineResult(line, numFeatures, parseLabel, conv).value.classLabel == p.classLabel &&
      |row| == numFeatures &&
      (forall k :: 0 <= k < |p.entries| ==> p.entries[k].0 < numFeatures && row[p.entries[k].0] == p.entries[k].1) &&
      (forall j :: 0 <= j < numFeatures && (forall k :: 0 <= k < |p.entries| ==> p.entries[k].0 != j) ==> row[j] == 0.0)
  {
    if LineResult(line, numFeatures, parseLabel, conv).Success? {
      var es := ParseLineSpec(line, numFeatures, parseLabel, conv).value.entries;
      EntriesColumns(line, numFeatures, parseLabel, conv);
      ApplyCells(Zeros(numFeatures), es);
    }
  }

  /** One turn of the loop. */
  method NextEntry(line: string, pos: nat, last: nat, limit: nat, conv: Converters) returns (s: Step)
    requires pos <= |line|
    ensures s == EntryStep(line, pos, last, limit, conv)
  {
    var colon := FindFirst(line, {':'}, pos);
    if colon.None? {
      return End;
    }
    var index := conv.index(line[pos..colon.value]);
    if index.Failure? {
      return Stop(BadIndex(index.error));
    }
    if index.value == 0 {
      return Stop(ZeroBasedIndex);
    }
    if last >= index.value {
      return Stop(NotIncreasing(index.value, last));
    }
    if index.value > limit {
      return Stop(IndexAboveFeatureCount(index.value, limit));
    }
    var space := FindFirst(line, {' '}, colon.value + 1);
    var end := if space.Some? then space.value else |line|;
    var value := conv.value(line[colon.value + 1..end]);
    if value.None? {
      return Stop(BadValue(line[colon.value + 1..end]));
    }
    return Feature(((index.value - 1) as nat, value.value), space);
  }

  /** How one turn extends the features read so far. */
  lemma EntriesStep(line: string, pos: nat, last: nat, limit: nat, conv: Converters)
    requires pos <= |line|
    ensures var s := EntryStep(line, pos, last, limit, conv);
      var r := Entries(line, pos, last, limit, conv);
      && (s.End? ==> r == Success([]))
      && (s.Stop? ==> r == Failure(s.error))
      && (s.Feature? && s.next.None? ==> r == Success([s.entry]))
      && (s.Feature? && s.next.Some? ==>
            r == Prefixed([s.entry], Entries(line, s.next.value, s.entry.0 + 1, limit, conv)))
  {
  }

  lemma PrefixedSnoc(done: seq<Entry>, entry: Entry, tail: Result<seq<Entry>, ParseError>)
    ensures Prefixed(done, Prefixed([entry], tail)) == Prefixed(done + [entry], tail)
  {
    if tail.Success? {
      assert done + ([entry] + tail.value) == (done + [entry]) + tail.value;
    }
  }

  lemma ApplySnoc(row: seq<real>, es: seq<Entry>, e: Entry)
    requires e.0 < |row|
    ensures Apply(row, es + [e]) == Apply(row, es)[e.0 := e.1]
  {
    assert (es + [e])[..|es|] == es;
  }

  /** A feature loop fails only with an error of its own line, never a label error. */
  lemma {:induction false} EntriesErrors(line: string, pos: nat, last: nat, limit: nat, conv: Converters)
    requires pos <= |line|
    ensures Entries(line, pos, last, limit, conv).Failure? ==>
      LineError(Entries(line, pos, last, limit, conv).error) && !Entries(line, pos, last, limit, conv).error.BadLabel?
    decreases |line| - pos
  {
    var step := EntryStep(line, pos, last, limit, conv);
    if step.Feature? && step.next.Some? {
      EntriesErrors(line, step.next.value, step.entry.0 + 1, limit, conv);
    }
    EntriesStep(line, pos, last, limit, conv);
  }

  /** The loop's account of the features after one more turn. */
  lemma Advance(line: string, pos: nat, last: nat, limit: nat, conv: Converters, done: seq<Entry>,
                features: Result<seq<Entry>, ParseError>, step: Step)
    requires pos <= |line| && features == Prefixed(done, Entries(line, pos, last, limit, conv))
    requires step == EntryStep(line, pos, last, limit, conv)
    ensures step.End? ==> features == Success(done)
    ensures step.Stop? ==> features == Failure(step.error)
    ensures step.Feature? && step.next.None? ==> features == Success(done + [step.entry])
    ensures step.Feature? && step.next.Some? ==>
      features == Prefixed(done + [step.entry], Entries(line, step.next.value, step.entry.0 + 1, limit, conv))
  {
    EntriesStep(line, pos, last, limit, conv);
    if step.End? {
      assert done + [] == done;
    } else if step.Feature? && step.next.Some? {
      PrefixedSnoc(done, step.entry, Entries(line, step.next.value, step.entry.0 + 1, limit, conv));
    }
  }

  lemma PrefixedNothing(r: Result<seq<Entry>, ParseError>)
    ensures Prefixed([], r) == r
  {
    if r.Success? {
      assert [] + r.value == r.value;
    }
  }

  /** The feature loop of `parse_libsvm_data`: the features from cursor `start` written one
    by one into a fresh row of zeros. */
  method ReadFeatures(line: string, start: Option<nat>, numFeatures: nat, conv: Converters)
    returns (r: Result<seq<real>, ParseError>)
    requires start.Some? ==> start.value <= |line|
    ensures r == RowFrom(line, start, numFeatures, conv)
  {
    var pos := start;
    ghost var done: seq<Entry> := [];
    var row := new real[numFeatures](_ => 0.0);
    var last: nat := 0;
    ghost var features := FeaturesFrom(line, start, numFeatures, conv);
    if start.Some? {
      PrefixedNothing(Entries(line, start.value, 0, numFeatures, conv));
    }
    while pos.Some?
      invariant pos.Some? ==> pos.value <= |line|
      invariant row[..] == Apply(Zeros(numFeatures), done)
      invariant pos.Some? ==> features == Prefixed(done, Entries(line, pos.value, last, numFeatures, conv))
      invariant pos.None? ==> features == Success(done)
      decreases if pos.Some? then |line| + 1 - pos.value else 0
    {
      var step := NextEntry(line, pos.value, last, numFeatures, conv);
      Advance(line, pos.value, last, numFeatures, conv, done, features, step);
      if step.End? {
        pos := None;
      } else if step.Stop? {
        return Failure(step.error);
      } else {
        row[step.entry.0] := step.entry.1;
        ApplySnoc(Zeros(numFeatures), done, step.entry);
        done := done + [step.entry];
        last := step.entry.0 + 1;
        pos := step.next;
      }
    }
    return Success(row[..]);
  }

  /** The body of the per-line loop of `parse_libsvm_data`: the label, then the features. */
  method ParseLine<L>(line: string, numFeatures: nat, parseLabel: string -> Option<L>, conv: Converters)
    returns (r: Result<ParsedLine<L>, ParseError>)
    ensures r == LineResult(line, numFeatures, parseLabel, conv)
  {
    var classLabel: Option<L> := None;
    var pos: Option<nat> := Some(0);
    var sep := LabelSeparator(line);
    if sep.Some? {
      var labelText := if sep.value.Some? then line[..sep.value.value] else line;
      var parsed := parseLabel(labelText);
      if parsed.None? {
        return Failure(BadLabel(labelText));
      }
      classLabel := Some(parsed.value);
      pos := sep.value;
    }
    var row := ReadFeatures(line, pos, numFeatures, conv);
    if row.Failure? {
      return Failure(row.error);
    }
    return Success(ParsedLine(classLabel, row.value));
  }

  // ---------------------------------------------------------------- whole file

  /** The per-line results in order, or the error of the first line that fails (the
    serial order of the library's loop). */
  function Collect<T, E>(rs: seq<Result<T, E>>): (r: Result<seq<T>, E>)
    ensures r.Success? ==> |r.value| == |rs|
  {
    if rs == [] then Success([])
    else
      var init := Collect(rs[..|rs| - 1]);
      if init.Failure? then init
      else
        var last := rs[|rs| - 1];
        if last.Failure? then Failure(last.error) else Success(init.value + [last.value])
  }

  /** The collection succeeds iff every line does, and then holds each line's value in
    its place. */
  lemma {:induction false} CollectSucceeds<T, E>(rs: seq<Result<T, E>>)
    ensures Collect(rs).Success? <==> forall i :: 0 <= i < |rs| ==> rs[i].Success?
    ensures Collect(rs).Success? ==> forall i :: 0 <= i < |rs| ==> rs[i] == Success(Collect(rs).value[i])
  {
    if rs != [] {
      var init := rs[..|rs| - 1];
      CollectSucceeds(init);
      assert forall i :: 0 <= i < |init| ==> init[i] == rs[i];
    }
  }

  /** A failed collection reports the error of the first failing line. */
  lemma {:induction false} CollectFails<T, E>(rs: seq<Result<T, E>>)
    requires Collect(rs).Failure?
    ensures exists i ::
      0 <= i < |rs| && rs[i] == Failure(Collect(rs).error) && forall j :: 0 <= j < i ==> rs[j].Success?
  {
    var init := rs[..|rs| - 1];
    assert forall i :: 0 <= i < |init| ==> init[i] == rs[i];
    if Collect(init).Failure? {
      CollectFails(init);
    } else {
      CollectSucceeds(init);
      assert rs[|rs| - 1] == Failure(Collect(rs).error);
    }
  }

  /** Once a prefix fails, the whole collection fails with the same error. */
  lemma {:induction false} CollectFailed<T, E>(rs: seq<Result<T, E>>, k: nat)
    requires k <= |rs| && Collect(rs[..k]).Failure?
    ensures Collect(rs) == Collect(rs[..k])
    decreases |rs| - k
  {
    if k < |rs| {
      assert rs[..k + 1][..k] == rs[..k];
      CollectFailed(rs, k + 1);
    } else {
      assert rs[..k] == rs;
    }
  }

  /** One more line extends the collection of the lines before it. */
  lemma CollectSnoc<T, E>(rs: seq<Result<T, E>>, i: nat)
    requires i < |rs| && Collect(rs[..i]).Success?
    ensures Collect(rs[..i + 1]) ==
      if rs[i].Failure? then Failure(rs[i].error) else Success(Collect(rs[..i]).value + [rs[i].value])
  {
    assert rs[..i + 1][..i] == rs[..i];
  }

  /** Every line's result with the same feature count and conversions. */
  function LineResults<L>(lines: seq<string>, numFeatures: nat, parseLabel: string -> Option<L>, conv: Converters)
    : (rs: seq<Result<ParsedLine<L>, ParseError>>)
    ensures |rs| == |lines| && forall i :: 0 <= i < |lines| ==> rs[i] == LineResult(lines[i], numFeatures, parseLabel, conv)
  {
    seq(|lines|, i requires 0 <= i < |lines| => LineResult(lines[i], numFeatures, parseLabel, conv))
  }

  predicate AnyLabelled<L>(ps: seq<ParsedLine<L>>) {
    exists i :: 0 <= i < |ps| && ps[i].classLabel.Some?
  }

  predicate AnyUnlabelled<L>(ps: seq<ParsedLine<L>>) {
    exists i :: 0 <= i < |ps| && ps[i].classLabel.None?
  }

  lemma AnySnoc<L>(ps: seq<ParsedLine<L>>, p: ParsedLine<L>)
    ensures AnyLabelled(ps + [p]) == (AnyLabelled(ps) || p.classLabel.Some?)
    ensures AnyUnlabelled(ps + [p]) == (AnyUnlabelled(ps) || p.classLabel.None?)
  {
    var next := ps + [p];
    assert next[|ps|] == p && forall j :: 0 <= j < |ps| ==> next[j] == ps[j];
  }

  /** The collected lines contain a labelled (unlabelled) one iff some line's result is
    labelled (unlabelled). */
  lemma CollectLabels<L>(rs: seq<Result<ParsedLine<L>, ParseError>>)
    requires Collect(rs).Success?
    ensures AnyLabelled(Collect(rs).value) <==> exists i :: 0 <= i < |rs| && rs[i].Success? && rs[i].value.classLabel.Some?
    ensures AnyUnlabelled(Collect(rs).value) <==> exists i :: 0 <= i < |rs| && rs[i].Success? && rs[i].value.classLabel.None?
  {
    var ps := Collect(rs).value;
    CollectSucceeds(rs);
    if AnyLabelled(ps) {
      var i :| 0 <= i < |ps| && ps[i].classLabel.Some?;
      assert rs[i].value == ps[i];
    }
    if AnyUnlabelled(ps) {
      var i :| 0 <= i < |ps| && ps[i].classLabel.None?;
      assert rs[i].value == ps[i];
    }
  }

  function Rows<L>(ps: seq<ParsedLine<L>>): (rows: seq<seq<real>>)
    ensures |rows| == |ps| && forall i :: 0 <= i < |ps| ==> rows[i] == ps[i].row
  {
    seq(|ps|, i requires 0 <= i < |ps| => ps[i].row)
  }

  function Labels<L>(ps: seq<ParsedLine<L>>): (labels: seq<L>)
    requires !AnyUnlabelled(ps)
    ensures |labels| == |ps| && forall i :: 0 <= i < |ps| ==> Some(labels[i]) == ps[i].classLabel
  {
    seq(|ps|, i requires 0 <= i < |ps| => assert ps[i].classLabel.Some?; ps[i].classLabel.value)
  }

  /** What `parse_libsvm_data` returns: the number of data points, the number of features,
    one row per line and the labels (empty when the lines carry none). */
  datatype LibsvmData<L> = LibsvmData(numDataPoints: nat, numFeatures: nat, data: seq<seq<real>>, labels: seq<L>)

  /** `parse_libsvm_data` on the reader's lines, with the library's index conversion and
    the given label and value conversions. */
  function ParseLibsvm<L>(lines: seq<string>, parseLabel: string -> Option<L>, parseReal: string -> Option<real>)
    : Result<LibsvmData<L>, ParseError>
  {
    var nf := NumFeatures(lines, 0, LibraryIndex);
    if nf.Failure? then Failure(BadIndex(nf.error))
    else if nf.value == 0 then Failure(NoDataPoints)
    else
      var parsed := Collect(LineResults(lines, nf.value, parseLabel, Converters(LibraryIndex, parseReal)));
      if parsed.Failure? then Failure(parsed.error)
      else
        var ps := parsed.value;
        if AnyLabelled(ps) && AnyUnlabelled(ps) then Failure(InconsistentLabels)
        else Success(LibsvmData(|lines|, nf.value, Rows(ps), if AnyUnlabelled(ps) then [] else Labels(ps)))
  }

  /** `parse_libsvm_data`: the feature count, then each line in turn, then the label check. */
  method ParseLibsvmData<L>(lines: seq<string>, parseLabel: string -> Option<L>, parseReal: string -> Option<real>)
    returns (r: Result<LibsvmData<L>, ParseError>)
    ensures r == ParseLibsvm(lines, parseLabel, parseReal)
  {
    var conv := Converters(LibraryIndex, parseReal);
    var numFeatures := ParseNumFeatures(lines, 0, LibraryIndex);
    if numFeatures.Failure? {
      return Failure(BadIndex(numFeatures.error));
    }
    if numFeatures.value == 0 {
      return Failure(NoDataPoints);
    }
    var nf := numFeatures.value;
    var parsed: seq<ParsedLine<L>> := [];
    var hasLabel, hasNoLabel := false, false;
    ghost var rs := LineResults(lines, nf, parseLabel, conv);
    for i := 0 to |lines|
      invariant Collect(rs[..i]) == Success(parsed)
      invariant hasLabel == AnyLabelled(parsed)
      invariant hasNoLabel == AnyUnlabelled(parsed)
    {
      var line := ParseLine(lines[i], nf, parseLabel, conv);
      CollectSnoc(rs, i);
      if line.Failure? {
        CollectFailed(rs, i + 1);
        return Failure(line.error);
      }
      AnySnoc(parsed, line.value);
      hasLabel := hasLabel || line.value.classLabel.Some?;
      hasNoLabel := hasNoLabel || line.value.classLabel.None?;
      parsed := parsed + [line.value];
    }
    assert rs[..|rs|] == rs;
    if hasLabel && hasNoLabel {
      return Failure(InconsistentLabels);
    }
    return Success(LibsvmData(|lines|, nf, Rows(parsed), if hasNoLabel then [] else Labels(parsed)));
  }

  /** A file parses only when its feature count does and is positive; it then has one
    data point per line, and at least one line. */
  lemma ParseLibsvmCounts<L>(lines: seq<string>, parseLabel: string -> Option<L>, parseReal: string -> Option<real>)
    requires ParseLibsvm(lines, parseLabel, parseReal).Success?
    ensures var d := ParseLibsvm(lines, parseLabel, parseReal).value;
      && NumFeatures(lines, 0, LibraryIndex) == Success(d.numFeatures) && d.numFeatures > 0
      && d.numDataPoints == |lines| == |d.data| && |lines| > 0
  {
    assert |lines| > 0 by {
      MaxIndexIsMax(LineIndices(lines, LibraryIndex), 0);
    }
  }

  /** Every line of a parsed file parses, and its row is the file's row at that place. */
  lemma ParseLibsvmRows<L>(lines: seq<string>, parseLabel: string -> Option<L>, parseReal: string -> Option<real>)
    requires ParseLibsvm(lines, parseLabel, parseReal).Success?
    ensures var d := ParseLibsvm(lines, parseLabel, parseReal).value;
      var rs := LineResults(lines, d.numFeatures, parseLabel, Converters(LibraryIndex, parseReal));
      |d.data| == |lines| &&
      forall i :: 0 <= i < |lines| ==> rs[i].Success? && d.data[i] == rs[i].value.row && |d.data[i]| == d.numFeatures
  {
    var nf := NumFeatures(lines, 0, LibraryIndex).value;
    CollectSucceeds(LineResults(lines, nf, parseLabel, Converters(LibraryIndex, parseReal)));
  }

  /** A parsed file's labels are empty iff some line is unlabelled; otherwise they are the
    lines' labels in order. */
  lemma ParseLibsvmLabels<L>(lines: seq<string>, parseLabel: string -> Option<L>, parseReal: string -> Option<real>)
    requires ParseLibsvm(lines, parseLabel, parseReal).Success?
    ensures var d := ParseLibsvm(lines, parseLabel, parseReal).value;
      var rs := LineResults(lines, d.numFeatures, parseLabel, Converters(LibraryIndex, parseReal));
      && (d.labels == [] <==> exists i :: 0 <= i < |lines| && rs[i].Success? && rs[i].value.classLabel.None?)
      && (d.labels != [] ==>
            |d.labels| == |lines| && forall i :: 0 <= i < |lines| ==> rs[i].Success? && rs[i].value.classLabel == Some(d.labels[i]))
  {
    var nf := NumFeatures(lines, 0, LibraryIndex).value;
    var rs := LineResults(lines, nf, parseLabel, Converters(LibraryIndex, parseReal));
    ParseLibsvmCounts(lines, parseLabel, parseReal);
    CollectSucceeds(rs);
    CollectLabels(rs);
  }

  /** Once the feature count is positive, the file is rejected for its labels iff every
    line parses and some lines are labelled while others are not. */
  lemma InconsistentLabelsIff<L>(lines: seq<string>, parseLabel: string -> Option<L>, parseReal: string -> Option<real>)
    requires NumFeatures(lines, 0, LibraryIndex).Success? && NumFeatures(lines, 0, LibraryIndex).value > 0
    ensures var rs := LineResults(lines, NumFeatures(lines, 0, LibraryIndex).value, parseLabel, Converters(LibraryIndex, parseReal));
      ParseLibsvm(lines, parseLabel, parseReal) == Failure(InconsistentLabels) <==>
        (forall i :: 0 <= i < |lines| ==> rs[i].Success?) &&
        (exists i :: 0 <= i < |lines| && rs[i].Success? && rs[i].value.classLabel.Some?) &&
        (exists i :: 0 <= i < |lines| && rs[i].Success? && rs[i].value.classLabel.None?)
  {
    var nf := NumFeatures(lines, 0, LibraryIndex).value;
    var conv := Converters(LibraryIndex, parseReal);
    var rs := LineResults(lines, nf, parseLabel, conv);
    CollectSucceeds(rs);
    if Collect(rs).Failure? {
      CollectFails(rs);
    } else {
      CollectLabels(rs);
    }
  }

  /** A file in which no line has a ':' holds no features and is rejected, as is an empty one. */
  lemma NoColonNoData<L>(lines: seq<string>, parseLabel: string -> Option<L>, parseReal: string -> Option<real>)
    requires forall i, k :: 0 <= i < |lines| && 0 <= k < |lines[i]| ==> lines[i][k] != ':'
    ensures ParseLibsvm(lines, parseLabel, parseReal) == Failure(NoDataPoints)
  {
    var ix := LineIndices(lines, LibraryIndex);
    forall j | 0 <= j < |ix|
      ensures ix[j].None?
    {
      assert FindLast(lines[j], ':', |lines[j]|).None?;
    }
    MaxIndexNoColon(ix, 0);
  }

  /** Label detection: a leading token before the first space is a label, a leading
    `index:value` pair is not, and a line without spaces or colons is a bare label. */
  lemma LabelSeparatorExamples()
    ensures LabelSeparator("1 1:0.5") == Some(Some(1))
    ensures LabelSeparator("1:0.5 2:1") == None
    ensures LabelSeparator("-1") == Some(None)
  {
    assert FindFirst("1 1:0.5", {' ', '\n'}, 0) == Some(1);
    assert FindFirst("1 1:0.5", {':', '\n'}, 0) == Some(3) by {
      assert FindFirst("1 1:0.5", {':', '\n'}, 3) == Some(3);
    }
    assert FindFirst("1:0.5 2:1", {':', '\n'}, 0) == Some(1);
    assert FindFirst("1:0.5 2:1", {' ', '\n'}, 0) == Some(5) by {
      assert FindFirst("1:0.5 2:1", {' ', '\n'}, 5) == Some(5);
      assert FindFirst("1:0.5 2:1", {' ', '\n'}, 3) == Some(5);
    }
    assert FindFirst("-1", {' ', '\n'}, 0) == None by {
      assert FindFirst("-1", {' ', '\n'}, 2) == None;
    }
  }

  // ---------------------------------------------------------------- an index past the count

  /** A line whose last feature index is smaller than an earlier one. */
  const UNORDERED_TAIL: string := "1 1:2 5 3:4"

  /** The feature count is read from the text between the last space before the last ':'
    and that colon: " 3", so the line declares three features. */
  lemma UnorderedTailCount()
    ensures NumFeatures([UNORDERED_TAIL], 0, LibraryIndex) == Success(3)
  {
    var line := UNORDERED_TAIL;
    assert FindLast(line, ':', |line|) == Some(9);
    assert FindLast(line, ' ', 9) == Some(7);
    assert line[7..9] == Spaces(1) + Render(3) + "";
    IndexRoundTrip(1, 3, "");
    var ix := LineIndices([line], LibraryIndex);
    assert ix[0] == Some(Success(3));
    assert MaxIndexFrom(ix, 1) == Success(0);
  }

  /** The first turn on that line reads index 1 and value "2", whatever the bound. */
  lemma UnorderedTailFirst(limit: nat, conv: Converters)
    requires conv.index == LibraryIndex && 1 <= limit && conv.value("2").Some?
    ensures EntryStep(UNORDERED_TAIL, 1, 0, limit, conv) == Feature((0, conv.value("2").value), Some(5))
  {
    UnorderedTailFirstIndex(UNORDERED_TAIL);
    UnorderedTailFirstValue(UNORDERED_TAIL);
    EntryStepReads(UNORDERED_TAIL, 1, 0, limit, conv, 3, 1, 5);
  }

  /** From behind the label the first ':' is at 3, behind the index text " 1". */
  lemma UnorderedTailFirstIndex(line: string)
    requires line == UNORDERED_TAIL
    ensures FindFirst(line, {':'}, 1) == Some(3) && LibraryIndex(line[1..3]) == Success(1)
  {
    assert FindFirst(line, {':'}, 3) == Some(3);
    assert line[1..3] == Spaces(1) + Render(1) + "";
    IndexRoundTrip(1, 1, "");
  }

  /** The value behind that ':' is "2", up to the space at 5. */
  lemma UnorderedTailFirstValue(line: string)
    requires line == UNORDERED_TAIL
    ensures FindFirst(line, {' '}, 4) == Some(5) && line[4..5] == "2"
  {
    assert FindFirst(line, {' '}, 5) == Some(5);
  }

  /** The second turn converts the text " 5 3" in front of the last ':' to 5. */
  lemma UnorderedTailIndex()
    ensures FindFirst(UNORDERED_TAIL, {':'}, 5) == Some(9)
    ensures LibraryIndex(UNORDERED_TAIL[5..9]) == Success(5)
  {
    var line := UNORDERED_TAIL;
    assert FindFirst(line, {':'}, 5) == Some(9);
    assert line[5..9] == Spaces(1) + Render(5) + " 3";
    IndexRoundTrip(1, 5, " 3");
  }

  /** The feature loop as the library writes it has no bound check (`ULONG_MAX` never
    fires): the index text " 5 3" converts to 5, so the line's second value goes to column 4
    of a matrix with three columns. */
  lemma UnboundedColumnExample(parseReal: string -> Option<real>)
    requires parseReal("2").Some? && parseReal("4").Some?
    ensures Entries(UNORDERED_TAIL, 1, 0, ULONG_MAX, Converters(LibraryIndex, parseReal))
      == Success([(0, parseReal("2").value), (4, parseReal("4").value)])
  {
    var line := UNORDERED_TAIL;
    var conv := Converters(LibraryIndex, parseReal);
    var first, second := (0, parseReal("2").value), (4, parseReal("4").value);
    UnorderedTailFirst(ULONG_MAX, conv);
    UnorderedTailLast(conv);
    EntriesStep(line, 1, 0, ULONG_MAX, conv);
    EntriesStep(line, 5, 1, ULONG_MAX, conv);
    assert [first] + [second] == [first, second];
  }

  /** Unbounded, the second turn reads index 5 and the value "4" up to the end of the line. */
  lemma UnorderedTailLast(conv: Converters)
    requires conv.index == LibraryIndex && conv.value("4").Some?
    ensures EntryStep(UNORDERED_TAIL, 5, 1, ULONG_MAX, conv) == Feature((4, conv.value("4").value), None)
  {
    var line := UNORDERED_TAIL;
    UnorderedTailIndex();
    assert FindFirst(line, {' '}, 10) == None;
    assert line[10..11] == "4";
  }

  /** With the bound checked against the feature count the same line is rejected. */
  lemma BoundedColumnExample(parseReal: string -> Option<real>)
    requires parseReal("2").Some?
    ensures Entries(UNORDERED_TAIL, 1, 0, 3, Converters(LibraryIndex, parseReal))
      == Failure(IndexAboveFeatureCount(5, 3))
  {
    var line := UNORDERED_TAIL;
    var conv := Converters(LibraryIndex, parseReal);
    UnorderedTailFirst(3, conv);
    UnorderedTailIndex();
    assert EntryStep(line, 5, 1, 3, conv) == Stop(IndexAboveFeatureCount(5, 3));
    EntriesStep(line, 1, 0, 3, conv);
    EntriesStep(line, 5, 1, 3, conv);
  }
}
