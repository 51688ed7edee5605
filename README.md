# PLSSVM input parsing, device buffers and the packed SYMM kernel in Dafny

This project models, and proves properties of, the deterministic core of PLSSVM, a least-squares support vector machine library:

- **Blas**: the HPX `device_kernel_symm`. It computes `C = alpha * A * B + beta * C` with a symmetric `A` stored as a padded packed upper triangle. The work is split into square tiles, each of which accumulates a thread-private block and writes back only the cells that are not padding.
- **OneVsOne**: the one-vs-one index arithmetic `x_vs_y_to_idx` and `calculate_alpha_idx`, and the remap of the weights read from a model file onto the pairwise classifiers.
- **ModelHeader / ModelData**: `parse_libsvm_model_header` (the entries, the checks after the loop, the labels of the support vectors) and `parse_libsvm_model_data` (per-line weight counting, features, and the one-vs-all / one-vs-one decision).
- **LibsvmParsing**: `parse_libsvm_num_features` and `parse_libsvm_data` (label detection, 1-based strictly increasing feature indices, label consistency).
- **StringUtility**: `starts_with`, `ends_with`, `contains`, `trim_left`, `replace_all`, `to_lower_case`, the integral `convert_to`, and `trim_right`, `trim` and `split`, which the parsers use.
- **LibsvmFile / Arff / ModelFile / Parameter**: the older readers of `parameter<T>`. These are `detail::parse_libsvm_file`, `parse_libsvm`, `parse_arff`, `parse_model_file` and `parse_file`, together with the derived output file names.
- **DevicePtr**: the OpenCL `device_ptr` wrapper. It covers ownership (move, move assignment, swap), the bounds and clamping of `memset`, `memcpy_to_device` and `memcpy_to_host`, and `error_code_to_string` / `device_assert`.

Conventions of the model:
- An exception becomes a `Failure`/`Fail` carrying an error value.
- `real_type` is Dafny's `real`.
- The conversions of floating-point text and of kernel names are function parameters that may fail (`string -> Option<...>`).
- The model-file header is generic in its label type `L`. Its `convert_to<label_type>` is a parameter `string -> Result<L, ConversionError>`, so labels are converted and compared as `label_type` values (`ModelHeader.IntLabel` for `int`, `ModelHeader.TextLabel` for `std::string`).
- A `file_reader` becomes a function from a file name and a comment character to the file's lines (`Reader`).
- The OpenCL buffer is a Dafny `array`.
- `INTERNAL_BLOCK_SIZE` and `PADDING_SIZE` are fields of `Blas.Layout`, with the requirement that the padding covers the overhang of a tail tile (`0 < blockSize <= padding + 1`).

OpenMP and HPX loops are modelled as sequential loops. Where several iterations can throw, the model reports the error of the first failing line in order.

Where the code departs from its evident intent, the model keeps the code's behaviour in an "as written" member. The rest of the model uses a corrected definition (see "## Findings").

## Model

| member | source | states |
|---|---|---|
| StringUtility.StartsWith | include/plssvm/detail/string_utility.hpp:35-42 | `starts_with(str, sv)` holds iff `sv` is a prefix of `str` |
| StringUtility.StartsWithChar | include/plssvm/detail/string_utility.hpp:44-51 | the char overload is the prefix test with a one-character string, and is false on the empty string |
| StringUtility.EndsWith | include/plssvm/detail/string_utility.hpp:53-60 | `ends_with(str, sv)` holds iff `sv` is no longer than `str` and `str` ends with it |
| StringUtility.EndsWithChar | include/plssvm/detail/string_utility.hpp:62-69 | the char overload is the suffix test with one character, and is false on the empty string |
| StringUtility.EndsWithIsReversedStartsWith | include/plssvm/detail/string_utility.hpp:53-60 | a suffix test equals the prefix test on the reversed strings (partner of `StartsWith`) |
| StringUtility.PrefixSuffixExamples | tests/detail/string_utility.cpp:19-43 | the unit tests' expectations for `starts_with` and `ends_with` on "abc" hold |
| StringUtility.Find | include/plssvm/detail/string_utility.hpp:71-78 | `find(sv, from)` returns an occurrence at or after `from`, and none lies between `from` and it; `None` means no occurrence |
| StringUtility.Contains | include/plssvm/detail/string_utility.hpp:71-78 | `contains(str, sv)` holds iff `sv` occurs somewhere in `str` |
| StringUtility.ContainsChar | include/plssvm/detail/string_utility.hpp:80-87 | `contains(str, c)` holds iff `c` is a character of `str` |
| StringUtility.FindChar | include/plssvm/detail/string_utility.hpp:80-87 | searching for a one-character string succeeds iff the character occurs |
| StringUtility.ContainsExamples | tests/detail/string_utility.cpp:45-56 | the unit tests' expectations for `contains` hold |
| StringUtility.FirstNotOf | include/plssvm/detail/string_utility.hpp:89-92 | `find_first_not_of` clamped to the length: all characters before the result equal `c`, and the one at the result does not |
| StringUtility.TrimLeft | include/plssvm/detail/string_utility.hpp:89-92 | `trim_left` returns a suffix of `str` that does not start with a space, and only spaces are cut |
| StringUtility.TrimLeftPadded | include/plssvm/detail/string_utility.hpp:89-92 | trimming undoes any leading padding of a string that does not start with a space |
| StringUtility.TrimLeftSplits | include/plssvm/detail/string_utility.hpp:89-92 | every string is its leading spaces followed by its trimmed form |
| StringUtility.TrimLeftIdempotent | include/plssvm/detail/string_utility.hpp:89-92 | `trim_left` is idempotent |
| StringUtility.TrimLeftAllSpaces | include/plssvm/detail/string_utility.hpp:89-92 | an all-space string trims to "" |
| StringUtility.TrimLeftExamples | tests/detail/string_utility.cpp:62-66 | the unit tests' expectations for `trim_left` hold |
| StringUtility.ReplacedSkips | include/plssvm/detail/string_utility.hpp:140-145 | text before the first occurrence of `what` is copied through unchanged |
| StringUtility.Replaced | include/plssvm/detail/string_utility.hpp:140-145 | the specification of `replace_all`: occurrences are replaced left to right without overlap, and inserted text is never searched again; its properties are the `Replaced*` lemmas |
| StringUtility.ReplacedNoOccurrence | include/plssvm/detail/string_utility.hpp:140-145 | a text without `what` is left unchanged |
| StringUtility.ReplacedSelf | include/plssvm/detail/string_utility.hpp:140-145 | replacing a word by itself changes nothing |
| StringUtility.ReplaceStep | include/plssvm/detail/string_utility.hpp:140-145 | one loop round: the finished part grows by the text up to the occurrence plus `with`, and the search resumes after the replaced occurrence |
| StringUtility.ReplaceDone | include/plssvm/detail/string_utility.hpp:140-145 | when no occurrence is left after `pos`, the string is final |
| StringUtility.ReplaceAll | include/plssvm/detail/string_utility.hpp:140-145 | `replace_all` with a non-empty `what` yields the left-to-right, non-overlapping, non-rescanning replacement `Replaced` |
| StringUtility.ReplaceAllExamples | tests/detail/string_utility.cpp:110-114 | the unit test's values for four of its five cases with a non-empty `what`, including `("aaa","aa","b")` giving "ba" |
| StringUtility.ToLower | include/plssvm/detail/string_utility.hpp:151-154 | `std::tolower` on one character: upper-case ASCII letters map to lower case, every other character stays (`LowerStringNoUpper`) |
| StringUtility.LowerString | include/plssvm/detail/string_utility.hpp:151-154 | same length, and each character mapped through `tolower` |
| StringUtility.LowerStringNoUpper | include/plssvm/detail/string_utility.hpp:151-154 | after lower-casing no upper-case letter is left and every other character is kept |
| StringUtility.LowerStringIdempotent | include/plssvm/detail/string_utility.hpp:151-154 | lower-casing twice equals lower-casing once |
| StringUtility.LowerStringExamples | tests/detail/string_utility.cpp:86-94 | the unit tests' values for `to_lower_case` |
| StringUtility.ToLowerCase | include/plssvm/detail/string_utility.hpp:151-154 | transforms the string in place into `LowerString` of its old contents and returns the same string |
| StringUtility.DigitRun | include/plssvm/detail/string_utility.hpp:106-131 | the end of the maximal digit run at `from` |
| StringUtility.SignLength | include/plssvm/detail/string_utility.hpp:106-131 | `from_chars` accepts a leading '-' exactly for signed types |
| StringUtility.FromChars | include/plssvm/detail/string_utility.hpp:106-131 | a successful conversion lies in the type's range; a failure carries the "Can't convert" error naming the text |
| StringUtility.ParseIntegral | include/plssvm/detail/string_utility.hpp:106-131 | `convert_to` trims leading spaces first; the failure names the trimmed text |
| StringUtility.ScanDigits | include/plssvm/detail/string_utility.hpp:106-131 | the digit loop stops at the end of the digit run, with the run's decimal value |
| StringUtility.ConvertToIntegral | include/plssvm/detail/string_utility.hpp:106-131 | the method returns `ParseIntegral` of its input |
| StringUtility.Decimal | include/plssvm/detail/string_utility.hpp:106-131 | the decimal rendering is a non-empty digit string |
| StringUtility.DecimalValue | include/plssvm/detail/string_utility.hpp:106-131 | reading a rendering back gives the number |
| StringUtility.FromCharsRendered | include/plssvm/detail/string_utility.hpp:106-131 | `from_chars` reads back the rendering of an in-range value followed by a non-digit |
| StringUtility.ConvertRoundTrip | include/plssvm/detail/string_utility.hpp:106-131 | leading spaces, then a rendered in-range value, then a non-digit tail, convert back to the value |
| StringUtility.ConvertExampleSix | tests/detail/string_conversion.cpp:36-37 | "  6 " converts to 6 |
| StringUtility.ConvertExampleNegative | tests/detail/string_conversion.cpp:36 | "-1.5" converts to -1 for a signed type |
| StringUtility.ConvertRejectsNonNumeric | include/plssvm/detail/string_utility.hpp:123-129 | text whose trimmed form starts with neither a digit nor '-' is rejected, and the error names the trimmed text, as the header formats it |
| StringUtility.ConvertUnsignedRejectsMinus | include/plssvm/detail/string_utility.hpp:106-131 | an unsigned type rejects a leading '-' |
| StringUtility.TrimRight | tests/detail/string_utility.cpp:70-74 | `trim_right` returns a prefix not ending in a space, and only spaces are cut |
| StringUtility.Trim | tests/detail/string_utility.cpp:78-82 | `trim` neither starts nor ends with a space |
| StringUtility.TrimRightPadded | tests/detail/string_utility.cpp:70-74 | trimming undoes trailing padding |
| StringUtility.TrimPadded | tests/detail/string_utility.cpp:78-82 | `trim` undoes padding on both sides |
| StringUtility.TrimRightExamples | tests/detail/string_utility.cpp:70-74 | the unit tests' values for `trim_right` |
| StringUtility.TrimRightPaddedExamples | tests/detail/string_utility.cpp:74 | the unit tests' values for `trim_right` on "abc   ", " abc  " and " a b c " |
| StringUtility.TrimExamples | tests/detail/string_utility.cpp:78-82 | the unit tests' values for `trim` |
| StringUtility.TrimPaddedExamples | tests/detail/string_utility.cpp:82 | the unit tests' values for `trim` on "abc   ", " abc  " and " a b c " |
| StringUtility.Split | tests/detail/string_utility.cpp:116-144 | `split` gives no pieces exactly for the empty text |
| StringUtility.SplitFrom | tests/detail/string_utility.cpp:116-144 | the pieces from a cursor on are never empty as a list; `SplitJoin` proves they rebuild the text |
| StringUtility.SplitJoin | tests/detail/string_utility.cpp:116-144 | joining the pieces with the delimiter gives the text back, and no piece holds the delimiter |
| StringUtility.SplitWhole | tests/detail/string_utility.cpp:140-144 | a text without the delimiter is one piece |
| StringUtility.SplitExamples | tests/detail/string_utility.cpp:140-144 | `split("42")` is `["42"]` |
| StringUtility.SplitEmptyPiece | tests/detail/string_utility.cpp:128-138 | adjacent delimiters give an empty piece |
| LibsvmParsing.FindFirst | include/plssvm/detail/io/libsvm_parsing.hpp:60-65 | `find_first_of` finds a character of the set at or after `from` |
| LibsvmParsing.FindFirstSkips | include/plssvm/detail/io/libsvm_parsing.hpp:146-161 | no character of the set lies before the reported position |
| LibsvmParsing.FindLast | include/plssvm/detail/io/libsvm_parsing.hpp:60-65 | `find_last_of` below a bound is the last position of the character |
| LibsvmParsing.LibraryIndex | include/plssvm/detail/io/libsvm_parsing.hpp:71 | a converted index fits in `unsigned long` |
| LibsvmParsing.IndexRoundTrip | include/plssvm/detail/io/libsvm_parsing.hpp:71 | a space-padded rendered index followed by a non-digit converts back to it |
| LibsvmParsing.LineIndices | include/plssvm/detail/io/libsvm_parsing.hpp:55-72 | one scanned index per line, read before the line's last ':' |
| LibsvmParsing.LineFeatureIndex | include/plssvm/detail/io/libsvm_parsing.hpp:58-72 | the per-line scan of `parse_libsvm_num_features` returns `LastFeatureIndex` |
| LibsvmParsing.ParseNumFeatures | include/plssvm/detail/io/libsvm_parsing.hpp:50-90 | the max-accumulating loop returns `NumFeatures`, the maximum over the lines from `skipped_lines` on |
| LibsvmParsing.NumFeatures | include/plssvm/detail/io/libsvm_parsing.hpp:50-90 | the specification of `parse_libsvm_num_features`: the maximum of the lines' indices from `skipped_lines` on, or the first conversion error (`MaxIndexIsMax`, `MaxIndexFails`) |
| LibsvmParsing.MaxIndexIsMax | include/plssvm/detail/io/libsvm_parsing.hpp:50-90 | the result bounds every line's index and is either 0 or the index of some line |
| LibsvmParsing.MaxIndexFails | include/plssvm/detail/io/libsvm_parsing.hpp:71-87 | the scan fails iff some line's index does not convert |
| LibsvmParsing.MaxIndexNoColon | include/plssvm/detail/io/libsvm_parsing.hpp:60-65 | lines without ':' contribute nothing; with none the count is 0 |
| LibsvmParsing.MaxIndexSkips | include/plssvm/detail/io/libsvm_parsing.hpp:50-58 | lines before `skipped_lines` do not take part |
| LibsvmParsing.NumFeaturesPositive | include/plssvm/detail/io/libsvm_parsing.hpp:50-90 | a positive count needs a line after the skipped ones |
| LibsvmParsing.NumFeaturesSkips | include/plssvm/detail/io/libsvm_parsing.hpp:50-58 | the count after skipping equals the count of the remaining lines |
| LibsvmParsing.EntryStep | include/plssvm/detail/io/libsvm_parsing.hpp:164-192 | a feature turn yields a column at least the previous index and below the feature count; the next cursor is a later space |
| LibsvmParsing.EntryStepEnds | include/plssvm/detail/io/libsvm_parsing.hpp:164-168 | the feature loop ends exactly when no ':' is left after the cursor |
| LibsvmParsing.EntriesWellFormed | include/plssvm/detail/io/libsvm_parsing.hpp:172-191 | parsed features have strictly increasing columns, all below the feature count |
| LibsvmParsing.EntriesUnlimited | include/plssvm/detail/io/libsvm_parsing.hpp:179-190 | without a bound the loop never reports an index above the feature count (the source has no such check) |
| LibsvmParsing.LabelSeparator | include/plssvm/detail/io/libsvm_parsing.hpp:146-161 | a line is labelled iff its first ':' or newline is not before its first space or newline |
| LibsvmParsing.LabelPart | include/plssvm/detail/io/libsvm_parsing.hpp:146-161 | a label is parsed exactly for labelled lines; a label that does not convert is an error |
| LibsvmParsing.FeaturesWellFormed | include/plssvm/detail/io/libsvm_parsing.hpp:172-191 | features from any cursor are strictly increasing and below the feature count |
| LibsvmParsing.EntriesColumns | include/plssvm/detail/io/libsvm_parsing.hpp:164-192 | the features of a parsed line are strictly increasing columns below the feature count |
| LibsvmParsing.ApplyCells | include/plssvm/detail/io/libsvm_parsing.hpp:190 | writing distinct columns puts each value in its column and keeps every other cell |
| LibsvmParsing.RowFrom | include/plssvm/detail/io/libsvm_parsing.hpp:164-192 | a parsed row has `num_features` values |
| LibsvmParsing.LineResult | include/plssvm/detail/io/libsvm_parsing.hpp:140-208 | a line fails only with a line-level error |
| LibsvmParsing.RowCells | include/plssvm/detail/io/libsvm_parsing.hpp:140-208 | a line parses iff its label and features do; its row holds each feature's value at `index - 1` and 0 elsewhere |
| LibsvmParsing.NextEntry | include/plssvm/detail/io/libsvm_parsing.hpp:164-192 | one turn of the feature loop equals `EntryStep` |
| LibsvmParsing.EntriesErrors | include/plssvm/detail/io/libsvm_parsing.hpp:172-188 | a feature loop fails only with its own line's error, never a label error |
| LibsvmParsing.ReadFeatures | include/plssvm/detail/io/libsvm_parsing.hpp:164-192 | the loop writes the features into a fresh row of zeros, giving `RowFrom` |
| LibsvmParsing.ParseLine | include/plssvm/detail/io/libsvm_parsing.hpp:140-208 | one iteration of the per-line loop equals `LineResult` |
| LibsvmParsing.Collect | include/plssvm/detail/io/libsvm_parsing.hpp:193-208 | the per-line results in order, or the first error |
| LibsvmParsing.CollectSucceeds | include/plssvm/detail/io/libsvm_parsing.hpp:193-208 | collection succeeds iff every line does, and then keeps each line's value in place |
| LibsvmParsing.CollectFails | include/plssvm/detail/io/libsvm_parsing.hpp:193-208 | a failure reports the error of the first failing line |
| LibsvmParsing.CollectLabels | include/plssvm/detail/io/libsvm_parsing.hpp:209-212 | the collected lines contain a labelled (unlabelled) line iff some line's result is labelled (unlabelled) |
| LibsvmParsing.ParseLibsvmData | include/plssvm/detail/io/libsvm_parsing.hpp:115-215 | `parse_libsvm_data` returns `ParseLibsvm` |
| LibsvmParsing.ParseLibsvm | include/plssvm/detail/io/libsvm_parsing.hpp:115-215 | the specification of `parse_libsvm_data`: the feature count, then every line (first error wins), then the label check (`ParseLibsvmCounts`, `ParseLibsvmRows`, `ParseLibsvmLabels`, `InconsistentLabelsIff`) |
| LibsvmParsing.ParseLibsvmCounts | include/plssvm/detail/io/libsvm_parsing.hpp:121-214 | on success the feature count is `parse_libsvm_num_features`'s and positive, and there is one point per line |
| LibsvmParsing.ParseLibsvmRows | include/plssvm/detail/io/libsvm_parsing.hpp:140-214 | every line parses and its row is the file's row at that place |
| LibsvmParsing.ParseLibsvmLabels | include/plssvm/detail/io/libsvm_parsing.hpp:209-214 | the labels are empty iff some line is unlabelled, and otherwise are the lines' labels in order |
| LibsvmParsing.InconsistentLabelsIff | include/plssvm/detail/io/libsvm_parsing.hpp:209-212 | once the feature count is positive, the inconsistent-labels error arises iff every line parses and labelled and unlabelled lines are mixed |
| LibsvmParsing.NoColonNoData | include/plssvm/detail/io/libsvm_parsing.hpp:122-127 | a file without any ':' is rejected for having no data |
| LibsvmParsing.LabelSeparatorExamples | include/plssvm/detail/io/libsvm_parsing.hpp:146-161 | label detection on "1 1:0.5", "1:0.5 2:1" and "-1" |
| LibsvmParsing.UnorderedTailCount | include/plssvm/detail/io/libsvm_parsing.hpp:60-72 | the count of "1 1:2 5 3:4" is 3, read from its last ':' |
| LibsvmParsing.UnboundedColumnExample | include/plssvm/detail/io/libsvm_parsing.hpp:164-190 | as written, that line writes column 4 of a 3-column row |
| LibsvmParsing.BoundedColumnExample | include/plssvm/detail/io/libsvm_parsing.hpp:164-190 | the bounded loop rejects that line |
| OneVsOne.RowStartClosed | include/plssvm/detail/io/libsvm_model_parsing.hpp:57-63 | the start of classifier row `x` in closed form, as the source computes it |
| OneVsOne.XvsYToIdx | include/plssvm/detail/io/libsvm_model_parsing.hpp:57-63 | `x_vs_y_to_idx` is the lexicographic rank of the ordered pair |
| OneVsOne.XvsYSymmetric | include/plssvm/detail/io/libsvm_model_parsing.hpp:57-63 | `x_vs_y_to_idx` is symmetric in `x` and `y` |
| OneVsOne.XvsYExamples | include/plssvm/detail/io/libsvm_model_parsing.hpp:50-56 | the documented values (1,2,4) gives 3 and (3,1,4) gives 4 |
| OneVsOne.XvsYInRange | include/plssvm/detail/io/libsvm_model_parsing.hpp:57-63 | every index is below `n (n - 1) / 2` |
| OneVsOne.XvsYOrdered | include/plssvm/detail/io/libsvm_model_parsing.hpp:57-63 | indices follow the lexicographic order of the pairs, so they are injective |
| OneVsOne.IdxToXvsY | include/plssvm/detail/io/libsvm_model_parsing.hpp:57-63 | the inverse maps an index to a pair `x < y < n` |
| OneVsOne.IdxToXvsYRoundTrip | include/plssvm/detail/io/libsvm_model_parsing.hpp:57-63 | index to pair to index is the identity |
| OneVsOne.XvsYRoundTrip | include/plssvm/detail/io/libsvm_model_parsing.hpp:57-63 | pair to index to pair is the identity, so the map is a bijection onto `[0, n(n-1)/2)` |
| OneVsOne.FirstIndexOf | include/plssvm/detail/io/libsvm_model_parsing.hpp:75-94 | the first position of a value in a sequence, or `None` if absent |
| OneVsOne.AlphaIdx | include/plssvm/detail/io/libsvm_model_parsing.hpp:75-94 | `calculate_alpha_idx` normalises `i <= j`, finds the index in the two sets laid end to end, and fails iff it is in neither |
| OneVsOne.AlphaIdxSymmetric | include/plssvm/detail/io/libsvm_model_parsing.hpp:77-80 | the result does not depend on the order of `i` and `j` |
| OneVsOne.AlphaIdxExample | include/plssvm/detail/io/libsvm_model_parsing.hpp:64-74 | the documented example with sets [0,2,4] and [6,8,10] |
| OneVsOne.CalculateAlphaIdx | include/plssvm/detail/io/libsvm_model_parsing.hpp:75-94 | the two search loops return `AlphaIdx` |
| OneVsOne.OaoRemap | include/plssvm/detail/io/libsvm_model_parsing.hpp:483-516 | the remap has one weight sequence per classifier |
| OneVsOne.OaoRemapPair | include/plssvm/detail/io/libsvm_model_parsing.hpp:483-516 | classifier `x vs y` holds the `(y-1)`-th weights of class `x`'s support vectors, then the `x`-th weights of class `y`'s |
| OneVsOne.PartialStep | include/plssvm/detail/io/libsvm_model_parsing.hpp:494-511 | one push appends the `a`-th weight to the classifier of `c` and the `a`-th other class, and changes no other classifier |
| OneVsOne.PushWeights | include/plssvm/detail/io/libsvm_model_parsing.hpp:492-513 | the per-support-vector inner loop advances the partial remap by one support vector |
| OneVsOne.RemapOao | include/plssvm/detail/io/libsvm_model_parsing.hpp:483-516 | the `push_back` loops produce `OaoRemap` |
| OneVsOne.AlphaIdxOfRanges | include/plssvm/detail/io/libsvm_model_parsing.hpp:75-94 | over consecutive class ranges, `calculate_alpha_idx` finds the support vector's unique position |
| OneVsOne.RemapAgreesWithAlphaIdx | include/plssvm/detail/io/libsvm_model_parsing.hpp:483-516 | at the position `calculate_alpha_idx` finds, the remapped classifier holds the weight the support vector carries for the other class |
| ModelHeader.EntryValue | include/plssvm/detail/io/libsvm_model_parsing.hpp:166-168 | the value is the trimmed text after the first space, or the whole entry when there is no space |
| ModelHeader.KeyOf | include/plssvm/detail/io/libsvm_model_parsing.hpp:170-243 | the branch a lower-cased header line takes; it is the `SV` branch iff the line is exactly `sv` |
| ModelHeader.SizeOf | include/plssvm/detail/io/libsvm_model_parsing.hpp:195-207 | a converted count fits in `size_type` |
| ModelHeader.SplitAs | include/plssvm/detail/io/libsvm_model_parsing.hpp:208-239 | `split_as` converts every piece, or fails on the first that does not |
| ModelHeader.LabelOf | include/plssvm/detail/io/libsvm_model_parsing.hpp:221 | `split_as<label_type>` converts each piece with `convert_to<label_type>` and passes its error on |
| ModelHeader.SplitAsPieces | include/plssvm/detail/io/libsvm_model_parsing.hpp:221 | `split_as` succeeds iff every piece converts, and then holds each piece's converted value in its place |
| ModelHeader.UniqueIffDistinct | include/plssvm/detail/io/libsvm_model_parsing.hpp:227-230 | the `std::set` of the converted labels is as large as the list iff no two converted labels are equal |
| ModelHeader.LabelEntry | include/plssvm/detail/io/libsvm_model_parsing.hpp:216-231 | the `label` entry is accepted iff every piece converts to `label_type` and the converted values are at least two and pairwise distinct; it stores the converted values, passes on a conversion error, and reports the list size and the `std::set` size on a duplicate |
| ModelHeader.IntLabel | include/plssvm/detail/string_utility.hpp:106-131 | `convert_to<int>` for an integral label type, within the range of `int` |
| ModelHeader.TextLabel | include/plssvm/detail/io/libsvm_model_parsing.hpp:221 | with `std::string` labels each piece is a label as it stands |
| ModelHeader.IntLabelsOneAndOh1 | include/plssvm/detail/string_utility.hpp:106-131 | "1" and "01" both convert to the `int` 1 |
| ModelHeader.SameLabelTwice | include/plssvm/detail/io/libsvm_model_parsing.hpp:216-231 | for any label type, `label a b` whose two words convert to the same value is rejected as 2 labels of which 1 is unique |
| ModelHeader.FirstLabelUnconvertible | include/plssvm/detail/io/libsvm_model_parsing.hpp:216-231 | for any label type, `label a b` whose first word does not convert fails with that conversion's error |
| ModelHeader.TwoDistinctLabels | include/plssvm/detail/io/libsvm_model_parsing.hpp:216-231 | for any label type, `label a b` whose words convert to two different values is accepted with those values |
| ModelHeader.IntLabelsDuplicate | include/plssvm/detail/io/libsvm_model_parsing.hpp:216-231 | with `int` labels, the label text "1" + " " + "01" is rejected as 2 labels of which 1 is unique |
| ModelHeader.IntLabelsUnconvertible | include/plssvm/detail/io/libsvm_model_parsing.hpp:216-231 | with `int` labels, `label a b` is rejected with the conversion error for "a" |
| ModelHeader.TextLabelsDistinct | include/plssvm/detail/io/libsvm_model_parsing.hpp:216-231 | with `std::string` labels, `label 1 01` is accepted as the two labels "1" and "01" |
| ModelHeader.EntryStepChecks | include/plssvm/detail/io/libsvm_model_parsing.hpp:170-245 | the loop continues only after a recognised entry, stops iff the line is `SV`, rejects unrecognised lines, and every accepted entry passes the per-line checks (c_svc, positive total, rho, at least two labels that are distinct as converted `label_type` values, at least two counts) |
| ModelHeader.ScanFrom | include/plssvm/detail/io/libsvm_model_parsing.hpp:158-247 | the loop stops at a line index within the lines |
| ModelHeader.ScanWith | include/plssvm/detail/io/libsvm_model_parsing.hpp:158-247 | the header loop with a given line reader stops within the lines |
| ModelHeader.ScanStopsAtSv | include/plssvm/detail/io/libsvm_model_parsing.hpp:158-247 | the loop reads only entries up to the first `SV` line and stops there |
| ModelHeader.Validate | include/plssvm/detail/io/libsvm_model_parsing.hpp:250-316 | the checks after the loop pass iff the header is consistent: required keys present, the kernel check, matching `nr_class`, the `nr_sv` sum, one rho for two classes, a line after `SV` |
| ModelHeader.DataLabelsUpTo | include/plssvm/detail/io/libsvm_model_parsing.hpp:319-324 | the labels of the first `c` classes number `Start(nr_sv, c)` |
| ModelHeader.DataLabelsPlaced | include/plssvm/detail/io/libsvm_model_parsing.hpp:319-324 | support vector `s` of class `c` carries `labels[c]` |
| ModelHeader.FillDataLabels | include/plssvm/detail/io/libsvm_model_parsing.hpp:319-324 | the `std::fill` loop yields `DataLabels` |
| ModelHeader.ScanHeader | include/plssvm/detail/io/libsvm_model_parsing.hpp:158-247 | the header loop returns `ScanFrom` |
| ModelHeader.ParseModelHeader | include/plssvm/detail/io/libsvm_model_parsing.hpp:138-327 | `parse_libsvm_model_header`, generic in the label type, returns `ParseHeader` with the labels converted to `label_type` |
| ModelHeader.ParseHeader | include/plssvm/detail/io/libsvm_model_parsing.hpp:138-327 | the specification of `parse_libsvm_model_header` for any label type: the loop, with the labels converted by `convert_to<label_type>`, the checks after it, then the data labels (`ParseHeaderConsistent`, `ParseHeaderDataLabels`, `LabelEntry`) |
| ModelHeader.ParseHeaderConsistent | include/plssvm/detail/io/libsvm_model_parsing.hpp:250-326 | an accepted header has at least two labels that are distinct as `label_type` values, matching counts, the rho rule and the kernel-parameter rules, `total_sv` data labels, and a skip count of the `SV` line plus one, preceded only by entries |
| ModelHeader.ParseHeaderDataLabels | include/plssvm/detail/io/libsvm_model_parsing.hpp:319-324 | each support vector carries its class's label |
| ModelHeader.OnlySvMissesSvmType | include/plssvm/detail/io/libsvm_model_parsing.hpp:250-256 | a header of only `SV` fails with the first missing entry |
| ModelHeader.NrSvSumWrapsAsWritten | include/plssvm/detail/io/libsvm_model_parsing.hpp:309-312 | as written, the wrapped sum lets counts 2^64-1 and 2 pass for a total of 1 |
| ModelHeader.NrSvSumChecked | include/plssvm/detail/io/libsvm_model_parsing.hpp:309-312 | the exact sum rejects them |
| ModelData.MinWeightsDiffer | include/plssvm/detail/io/libsvm_model_parsing.hpp:375-411 | the minimum as written agrees with one per other class, except with two classes, where it is 0 |
| ModelData.WeightText | include/plssvm/detail/io/libsvm_model_parsing.hpp:402 | `substr(pos, next_pos)` takes a length, so the text is a prefix of the rest of the line |
| ModelData.LineWeights | include/plssvm/detail/io/libsvm_model_parsing.hpp:391-408 | the weights loop yields between the weights before it and the maximum, and fails only on too many or bad weights |
| ModelData.WeightsAgreeWithColon | include/plssvm/detail/io/libsvm_model_parsing.hpp:391-408 | on a line with a ':' the corrected loop equals the one as written |
| ModelData.WrapAroundExample | include/plssvm/detail/io/libsvm_model_parsing.hpp:394-408 | as written, a weights-only line is rejected; the corrected loop reads its weight |
| ModelData.ReadWeights | include/plssvm/detail/io/libsvm_model_parsing.hpp:391-408 | the weights loop returns `LineWeights` |
| ModelData.DataLineResult | include/plssvm/detail/io/libsvm_model_parsing.hpp:391-455 | a parsed line has between the minimum and the maximum number of weights and `num_features` values; failures are line errors |
| ModelData.NoWeightsRejected | include/plssvm/detail/io/libsvm_model_parsing.hpp:409-411 | with two classes a line without weights is rejected |
| ModelData.ReadDataLine | include/plssvm/detail/io/libsvm_model_parsing.hpp:385-471 | one pass of the per-line loop returns `DataLineResult` |
| ModelData.WeightRows | include/plssvm/detail/io/libsvm_model_parsing.hpp:378-402 | the weight matrix has `max` rows of one entry per line |
| ModelData.LinesWeightCounts | include/plssvm/detail/io/libsvm_model_parsing.hpp:385-471 | every parsed line carries an allowed number of weights |
| ModelData.OaoShape | include/plssvm/detail/io/libsvm_model_parsing.hpp:414-516 | a one-vs-one line implies more than two classes, and the remap reads only weights that were read |
| ModelData.ClassifyOneVsAll | include/plssvm/detail/io/libsvm_model_parsing.hpp:473-482 | in a one-vs-all decision every line has `max` weights, and row `a` holds each support vector's `a`-th weight |
| ModelData.ClassifyOneVsOne | include/plssvm/detail/io/libsvm_model_parsing.hpp:483-516 | in a one-vs-one decision every line has `n-1` weights and the weights are `OaoRemap` of the rows read |
| ModelData.RemappedWeightAt | include/plssvm/detail/io/libsvm_model_parsing.hpp:483-516 | at the position `calculate_alpha_idx` finds, the classifier holds the support vector's weight for the other class |
| ModelData.ClassifyNeverNeither | include/plssvm/detail/io/libsvm_model_parsing.hpp:517-519 | once a line is read, the "neither" error cannot happen |
| ModelData.ClassifyTwoClasses | include/plssvm/detail/io/libsvm_model_parsing.hpp:473-508 | with two classes every successful decision is one-vs-all |
| ModelData.ParseModelData | include/plssvm/detail/io/libsvm_model_parsing.hpp:357-523 | `parse_libsvm_model_data` returns `ParseModel` |
| ModelData.ParseModel | include/plssvm/detail/io/libsvm_model_parsing.hpp:357-523 | the specification of `parse_libsvm_model_data`: the feature count, the lines after the header, then the one-vs-all or one-vs-one decision (`ParseModelReads`, `ParseModelSteps`) |
| ModelData.DataLineResults | include/plssvm/detail/io/libsvm_model_parsing.hpp:385-471 | one result per data line, each the line's `DataLineResult` |
| ModelData.ParseModelReads | include/plssvm/detail/io/libsvm_model_parsing.hpp:357-523 | a success has a positive feature count, reads every line after the header, and decides on them |
| ModelData.ParseModelSteps | include/plssvm/detail/io/libsvm_model_parsing.hpp:357-523 | the parse is the feature count, then the lines (first error wins), then the decision |
| ModelData.NeverNoClassification | include/plssvm/detail/io/libsvm_model_parsing.hpp:517-519 | the model never ends in the "neither" error |
| ModelData.TwoClassesOneVsAll | include/plssvm/detail/io/libsvm_model_parsing.hpp:473-508 | a two-class model is always read as one-vs-all |
| ModelData.TwoClassesNoWeightsAsWritten | include/plssvm/detail/io/libsvm_model_parsing.hpp:409-508 | as written, two classes without weights are accepted as one-vs-one, and the remap reads a row that is gone |
| ModelData.ShortDataAsWritten | include/plssvm/detail/io/libsvm_model_parsing.hpp:485-513 | as written, fewer lines than support vectors are accepted, and the remap reads past the last line |
| ModelData.ShortDataRejected | include/plssvm/detail/io/libsvm_model_parsing.hpp:485-513 | the model rejects them |
| ModelData.UnorderedTailWeights | include/plssvm/detail/io/libsvm_model_parsing.hpp:391-408 | with two classes the weight of "1 1:2 5 3:4" is its first token |
| ModelData.UnorderedTailFeatureStart | include/plssvm/detail/io/libsvm_model_parsing.hpp:432-451 | the first feature turn on that line reads index 1 and the value "2" |
| ModelData.UnorderedTailAsWritten | include/plssvm/detail/io/libsvm_model_parsing.hpp:432-451 | as written, the feature loop on that line, which declares three features, writes its second value to column 4 |
| ModelData.UnorderedTailRejected | include/plssvm/detail/io/libsvm_model_parsing.hpp:432-451 | the model rejects that line because index 5 is above the feature count 3 |
| DevicePtr.ErrorCodeToString | src/plssvm/backends/OpenCL/detail/device_ptr.cpp:23-154 | total; "UNKNOWN" exactly for codes outside 0..-19 and -30..-72; 0 is "CL_SUCCESS" |
| DevicePtr.DeviceAssert | src/plssvm/backends/OpenCL/detail/device_ptr.cpp:156-160 | throws iff the code is not `CL_SUCCESS`, with the code's name |
| DevicePtr.Clamp | src/plssvm/backends/OpenCL/detail/device_ptr.cpp:205-283 | the touched count is `min(count, size - pos)` |
| DevicePtr.Overwrite | src/plssvm/backends/OpenCL/detail/device_ptr.cpp:205-283 | writing `src` at `pos` changes exactly those cells |
| DevicePtr.ReadAfterWrite | src/plssvm/backends/OpenCL/detail/device_ptr.cpp:225-283 | reading back a written range gives what was written |
| DevicePtr.WriteWhatIsThere | src/plssvm/backends/OpenCL/detail/device_ptr.cpp:225-283 | writing back a range's own contents changes nothing |
| DevicePtr.DevicePtr.constructor | src/plssvm/backends/OpenCL/detail/device_ptr.cpp:162-170 | a fresh buffer of `size` elements on the queue |
| DevicePtr.DevicePtr.Move | src/plssvm/backends/OpenCL/detail/device_ptr.cpp:172-176 | takes over queue, data and size, and leaves the source null with size 0 |
| DevicePtr.DevicePtr.Swap | src/plssvm/backends/OpenCL/detail/device_ptr.cpp:192-197 | exchanges exactly the three fields |
| DevicePtr.DevicePtr.MoveAssign | src/plssvm/backends/OpenCL/detail/device_ptr.cpp:178-183 | move-construct then swap: takes over the fields and leaves the source empty |
| DevicePtr.DevicePtr.Memset | src/plssvm/backends/OpenCL/detail/device_ptr.cpp:205-217 | throws iff `pos >= size`, leaving the buffer unchanged; otherwise fills the clamped range and keeps the rest |
| DevicePtr.DevicePtr.MemsetToEnd | src/plssvm/backends/OpenCL/detail/device_ptr.cpp:199-204 | fills from `pos` to the end and keeps the prefix before `pos`; throws `IllegalAccess` with the buffer unchanged when `pos` is at or past the end |
| DevicePtr.DevicePtr.WriteBuffer | src/plssvm/backends/OpenCL/detail/device_ptr.cpp:241-250 | writes the clamped number of elements at `pos` |
| DevicePtr.DevicePtr.MemcpyToDevice | src/plssvm/backends/OpenCL/detail/device_ptr.cpp:225-234 | throws iff the vector is shorter than the clamped count; otherwise writes the clamped range |
| DevicePtr.DevicePtr.MemcpyToDeviceAll | src/plssvm/backends/OpenCL/detail/device_ptr.cpp:219-224 | copies the whole buffer from the front of the vector; throws `TooFewData` with the buffer unchanged if the vector is too short |
| DevicePtr.DevicePtr.ReadBuffer | src/plssvm/backends/OpenCL/detail/device_ptr.cpp:274-283 | reads the clamped range into the front of the host buffer |
| DevicePtr.DevicePtr.MemcpyToHost | src/plssvm/backends/OpenCL/detail/device_ptr.cpp:258-267 | throws iff the host buffer is smaller than the clamped count, leaving it unchanged; otherwise copies the range out |
| DevicePtr.DevicePtr.MemcpyToHostAll | src/plssvm/backends/OpenCL/detail/device_ptr.cpp:252-257 | copies the whole device buffer to the front of the host buffer and keeps the host buffer's tail; throws `BufferTooSmall` with the host buffer unchanged if it is too small |
| Blas.CeilDiv | include/plssvm/backends/HPX/kernel/cg_explicit/blas.hpp:48-49 | integer ceiling division |
| Blas.PackedOffsetLexOrder | include/plssvm/backends/HPX/kernel/cg_explicit/blas.hpp:81-85 | the packed offset increases strictly in the lexicographic order of `(i, j)` |
| Blas.PackedOffsetInjective | include/plssvm/backends/HPX/kernel/cg_explicit/blas.hpp:81-85 | distinct upper-triangle entries have distinct offsets |
| Blas.PackedOffsetInBounds | include/plssvm/backends/HPX/kernel/cg_explicit/blas.hpp:43-85 | every offset for `i <= j < n + PAD` lies inside `A` |
| Blas.LastPackedOffset | include/plssvm/backends/HPX/kernel/cg_explicit/blas.hpp:43 | the last entry uses the last slot, so `A` is exactly filled |
| Blas.AOffset | include/plssvm/backends/HPX/kernel/cg_explicit/blas.hpp:81-85 | the lookup offset lies inside `A` |
| Blas.AOffsetSymmetric | include/plssvm/backends/HPX/kernel/cg_explicit/blas.hpp:81-85 | the offset for `(dim, j)` equals the one for `(j, dim)` |
| Blas.SymmResult | include/plssvm/backends/HPX/kernel/cg_explicit/blas.hpp:72-99 | the specification result has the size of `C` |
| Blas.SymmResultCell | include/plssvm/backends/HPX/kernel/cg_explicit/blas.hpp:72-99 | every in-range cell becomes `alpha * sum_d A(j,d) B(i,d) + beta * C(i,j)`, and every padding cell keeps its value |
| Blas.SymmAlphaZero | include/plssvm/backends/HPX/kernel/cg_explicit/blas.hpp:99 | with `alpha = 0` an in-range cell becomes `beta * C` |
| Blas.SymmBetaZero | include/plssvm/backends/HPX/kernel/cg_explicit/blas.hpp:99 | with `beta = 0` the old `C` does not matter |
| Blas.DotIgnoresPadding | include/plssvm/backends/HPX/kernel/cg_explicit/blas.hpp:82-86 | the in-range results read only the unpadded part of `A` and `B` |
| Blas.ApplyTilesCells | include/plssvm/backends/HPX/kernel/cg_explicit/blas.hpp:62-103 | distinct tiles in any order update exactly their in-range cells, each once, from the old value |
| Blas.AllTilesGiveSymmResult | include/plssvm/backends/HPX/kernel/cg_explicit/blas.hpp:62-103 | processing all tiles in any enumeration order gives `SymmResult` |
| Blas.TileEnumeration | include/plssvm/backends/HPX/kernel/cg_explicit/blas.hpp:56-60 | `k -> (k / blocked_rows, k % blocked_rows)` visits every tile exactly once |
| Blas.TileRange | include/plssvm/backends/HPX/kernel/cg_explicit/blas.hpp:56-60 | the filled range has `ceil(rhs/IBS) * ceil(rows/IBS)` entries, each tile exactly once |
| Blas.TileCellInPaddedBounds | include/plssvm/backends/HPX/kernel/cg_explicit/blas.hpp:82-86 | tile reads of `A` and `B` stay inside the padded data because the padding covers the overhang |
| Blas.SymmetricLookup | include/plssvm/backends/HPX/kernel/cg_explicit/blas.hpp:81-85 | the branch reads `A(dim, j)` through the packed symmetric lookup |
| Blas.TileTerm | include/plssvm/backends/HPX/kernel/cg_explicit/blas.hpp:86 | one summand `A(dim, j) * B(i, dim)` |
| Blas.AccumulateRow | include/plssvm/backends/HPX/kernel/cg_explicit/blas.hpp:75-88 | one inner pass adds dimension `dim` to row `ii` of `temp` |
| Blas.AccumulateTile | include/plssvm/backends/HPX/kernel/cg_explicit/blas.hpp:72-89 | `temp[a][b]` ends as the full dot product of its cell |
| Blas.TilePrefixStep | include/plssvm/backends/HPX/kernel/cg_explicit/blas.hpp:92-102 | a local cell's write-back updates it iff it is in range |
| Blas.WriteBackTile | include/plssvm/backends/HPX/kernel/cg_explicit/blas.hpp:92-102 | the write-back gives the tile's update: its in-range cells change, all other cells are untouched |
| Blas.DeviceKernelSymm | include/plssvm/backends/HPX/kernel/cg_explicit/blas.hpp:42-104 | the kernel leaves `C` equal to `SymmResult` of the old `C` |
| Blas.ApplyTilesSnoc | include/plssvm/backends/HPX/kernel/cg_explicit/blas.hpp:62-103 | one more tile applies its update to the result so far |
| LibsvmFile.PairAt | src/plssvm/parameter.cpp:60-78 | one feature turn ends at a later space |
| LibsvmFile.FeatureStart | src/plssvm/parameter.cpp:48-58 | the loop starts at the first space of a labelled line, or at 0 |
| LibsvmFile.ReadLine | src/plssvm/parameter.cpp:48-78 | a line has a label iff its first ':' comes after its first space |
| LibsvmFile.Resize | src/plssvm/parameter.cpp:69-103 | `resize(n)` cuts to `n` values or pads with zeros |
| LibsvmFile.Place | src/plssvm/parameter.cpp:66-74 | the row grows to `index + 1` whenever an index is past its end |
| LibsvmFile.PlaceHolds | src/plssvm/parameter.cpp:60-78 | each index gets the last value given for it and every other cell stays 0 |
| LibsvmFile.ResizeHolds | src/plssvm/parameter.cpp:100-103 | padding keeps those values |
| LibsvmFile.ReadFeatures | src/plssvm/parameter.cpp:60-78 | the feature loop yields `Place` of the pairs read, or their error |
| LibsvmFile.LineStep | src/plssvm/parameter.cpp:45-80 | one line keeps the sizes of `data` and `values` |
| LibsvmFile.ReadLineInto | src/plssvm/parameter.cpp:45-80 | one pass writes `values` and `data` in place as `LineStep` says |
| LibsvmFile.ReadLines | src/plssvm/parameter.cpp:43-98 | the line loop equals `ReadFrom` and returns the longest row |
| LibsvmFile.ResizeRows | src/plssvm/parameter.cpp:100-103 | every row is resized to the maximum |
| LibsvmFile.ParseLibsvmFile | src/plssvm/parameter.cpp:33-109 | `parse_libsvm_file` equals `ReadFile`, failing when every row is empty |
| LibsvmFile.ReadFile | src/plssvm/parameter.cpp:33-109 | the specification of `parse_libsvm_file`: the line loop, then the resize to the widest row (`ReadFileRows`, `ReadFileValues`) |
| LibsvmFile.ReadFrom | src/plssvm/parameter.cpp:43-98 | the line loop from line `i` on keeps one row and one value per line |
| LibsvmFile.ReplayRows | src/plssvm/parameter.cpp:60-80 | rows hold their pairs and are no longer than the maximum, which is some row's width |
| LibsvmFile.ReplayFirstValue | src/plssvm/parameter.cpp:48-59 | `values[0]` is the marker if some line is unlabelled, and otherwise line 0's label (which may itself equal the marker) |
| LibsvmFile.ReadFileRows | src/plssvm/parameter.cpp:33-109 | a parsed file has equal-width rows of positive width equal to the widest line, each cell the last value given |
| LibsvmFile.ReadFileValues | src/plssvm/parameter.cpp:48-59 | labelled lines give their labels; an unlabelled line puts the marker in `values[0]` |
| LibsvmFile.LibsvmLabels | src/plssvm/parameter.cpp:149-159 | labels are dropped iff some line is unlabelled (or the first label is the marker); otherwise they are mapped to 1 if positive and -1 otherwise |
| Arff.UpperString | src/plssvm/parameter.cpp:191 | the header line is matched in upper case |
| Arff.HeaderFrom | src/plssvm/parameter.cpp:187-211 | the header loop stops within the lines |
| Arff.ScanArffHeader | src/plssvm/parameter.cpp:187-211 | the header loop returns `HeaderFrom` |
| Arff.HeaderStops | src/plssvm/parameter.cpp:206-208 | the header stops at the first `@DATA` |
| Arff.HeaderNumeric | src/plssvm/parameter.cpp:195-198 | every attribute line before `@DATA` names the type NUMERIC |
| Arff.HeaderCounts | src/plssvm/parameter.cpp:195-205 | every attribute is NUMERIC and counts one feature |
| Arff.HeaderCount | src/plssvm/parameter.cpp:195-205 | the attribute count at `@DATA` is the count so far plus the attribute lines read |
| Arff.HeaderLabel | src/plssvm/parameter.cpp:199-203 | the label flag is set iff an attribute names CLASS |
| Arff.HeaderNothingAfterClass | src/plssvm/parameter.cpp:196-198 | once CLASS has been seen, no further attribute line is accepted |
| Arff.HeaderClassLast | src/plssvm/parameter.cpp:196-198 | no attribute follows the CLASS attribute |
| Arff.SparseStep | src/plssvm/parameter.cpp:243-281 | a sparse turn moves forward and keeps the row width |
| Arff.SparsePair | src/plssvm/parameter.cpp:250-278 | one pair of a sparse line is read past the cursor and keeps the row width |
| Arff.SparseFrom | src/plssvm/parameter.cpp:243-281 | the sparse loop keeps the row width |
| Arff.DenseFrom | src/plssvm/parameter.cpp:282-296 | the dense loop fills `end` values |
| Arff.DataLine | src/plssvm/parameter.cpp:229-300 | every data line that reads has `end` values |
| Arff.ReadSparse | src/plssvm/parameter.cpp:243-281 | the sparse loop returns `SparseFrom` |
| Arff.ReadDense | src/plssvm/parameter.cpp:282-296 | the dense loop returns `DenseFrom` |
| Arff.ReadDataLine | src/plssvm/parameter.cpp:229-300 | one data line returns `DataLine` |
| Arff.FieldsAreSplit | src/plssvm/parameter.cpp:282-296 | the fields found with `find_first_of(',')` are `split`'s pieces |
| Arff.DenseSucceeds | src/plssvm/parameter.cpp:282-296 | the dense loop succeeds iff there are more fields than columns left and each converts |
| Arff.DenseValues | src/plssvm/parameter.cpp:282-296 | column `j + t` gets field `t` |
| Arff.DenseColumn | src/plssvm/parameter.cpp:282-296 | column `j + t` of the dense loop is field `t` after the cursor |
| Arff.DenseLineReads | src/plssvm/parameter.cpp:282-296 | a dense line reads iff it has more than `end` fields, the first `end` convert, and the rest converts when there is a label |
| Arff.DenseLineValues | src/plssvm/parameter.cpp:282-296 | a dense line's values are its converted fields, and its label is the sign of the converted rest |
| Arff.DenseLine | src/plssvm/parameter.cpp:282-296 | a dense line reads iff it has more than `end` fields that convert; its label is the sign of the rest |
| Arff.SparseLabel | src/plssvm/parameter.cpp:266-269 | the sparse label is only ever 1 or -1 |
| Arff.DataLineLabel | src/plssvm/parameter.cpp:229-300 | in a labelled file every label is 1 or -1; a dense unlabelled line has label 0 |
| Arff.ArffData | src/plssvm/parameter.cpp:227-314 | the data section has one point per line after `@DATA` |
| Arff.DataResults | src/plssvm/parameter.cpp:227-314 | one result per data line after `@DATA` |
| Arff.ReadDataAt | src/plssvm/parameter.cpp:229-300 | reading data line `i` gives its entry of `DataResults` |
| Arff.ReadDataSection | src/plssvm/parameter.cpp:227-314 | the data loop fills the arrays with the rows and labels of `ArffData` |
| Arff.ReadDataRows | src/plssvm/parameter.cpp:227-314 | the data loop fills one array entry per line with that line's row and label, or stops at the first failing line |
| Arff.ParseArff | src/plssvm/parameter.cpp:171-323 | `parse_arff` equals `ReadArff` |
| Arff.ReadArff | src/plssvm/parameter.cpp:187-314 | the specification of `parse_arff`'s reading part: the header, its checks, then the data section (`ArffHeaderFacts`, `ArffPoints`, `ArffFirstError`) |
| Arff.ArffHeaderFacts | src/plssvm/parameter.cpp:187-211 | the header facts from the start of the file |
| Arff.ArffPoints | src/plssvm/parameter.cpp:221-296 | each point has one value per non-class attribute; labels are 1 or -1 when there is a class |
| Arff.ArffFirstError | src/plssvm/parameter.cpp:303-314 | a failing section reports its first failing line |
| Arff.UnlabelledWidthAsWritten | src/plssvm/parameter.cpp:221-227 | as written, rows without CLASS are one column short |
| Arff.SparseColumnAsWritten | src/plssvm/parameter.cpp:266-271 | the unchecked column written for a sparse pair is never the class index |
| Arff.SparseIndexExample | src/plssvm/parameter.cpp:266-271 | "{3 1}" with two columns makes the source write column 3; the model rejects it |
| Arff.SparseInRange | src/plssvm/parameter.cpp:266-271 | in the model, a sparse column is accepted iff it is inside the row |
| ModelFile.TwoTokens | src/plssvm/parameter.cpp:405-428 | the two tokens `label` and `nr_sv` cut from the value, and the rest left after them (`TwoTokensOf`, `LabelPairOf`) |
| ModelFile.ModelEntry | src/plssvm/parameter.cpp:368-449 | one header branch per key; an entry it reads keeps the scan valid (`ModelEntryValid`, `ModelLineStepValid`) |
| ModelFile.Truncate | src/plssvm/parameter.cpp:405-419 | a real stored into an `int` label truncates toward zero |
| ModelFile.LabelPair | src/plssvm/parameter.cpp:405-419 | `label` yields two values, each 1 or -1 |
| ModelFile.CountPair | src/plssvm/parameter.cpp:420-443 | `nr_sv` yields two counts adding up to `total_sv` |
| ModelFile.ModelScanFrom | src/plssvm/parameter.cpp:357-452 | the loop stops at an `sv` line within the lines |
| ModelFile.ModelScanWith | src/plssvm/parameter.cpp:357-452 | the header loop with a given line reader stops at an `sv` line within the lines |
| ModelFile.ScanModelHeader | src/plssvm/parameter.cpp:357-452 | the header loop returns `ModelScanFrom` |
| ModelFile.MissingCheck | src/plssvm/parameter.cpp:455-470 | the checks pass iff total, labels, counts, rho and `sv` are all present |
| ModelFile.Fill | src/plssvm/parameter.cpp:440-443 | the labels of `total` support vectors |
| ModelFile.FillValues | src/plssvm/parameter.cpp:440-443 | the two `std::fill` calls yield `Fill` |
| ModelFile.ReadModelData | src/plssvm/parameter.cpp:455-481 | a success has `num_sv` rows and weights |
| ModelFile.ReadModel | src/plssvm/parameter.cpp:345-481 | the specification of `parse_model_file`'s reading part: the header loop, the missing-field checks, the support vectors (`ModelFileRead`, `ModelFileErrors`) |
| ModelFile.ModelLineStepValid | src/plssvm/parameter.cpp:357-452 | a line is read only if it is an entry, and stops the loop without an error iff it is `sv` |
| ModelFile.ModelScanStops | src/plssvm/parameter.cpp:357-452 | the loop stops at the first `sv` after entries only |
| ModelFile.ModelFileRead | src/plssvm/parameter.cpp:334-482 | a read model has labels ±1, `num_sv` equal-width rows and weights, and values of `num_first` copies of the first label followed by the second |
| ModelFile.ModelFileErrors | src/plssvm/parameter.cpp:455-470 | the missing-field errors come in the order total, labels, `nr_sv`, rho, `sv` |
| ModelFile.ReadModelDataErrors | src/plssvm/parameter.cpp:455-470 | after the header loop, a rejected line's error comes first, then the missing total, labels, `nr_sv`, rho and `sv`, in the source's order |
| ModelFile.LabelPairOf | src/plssvm/parameter.cpp:405-419 | "1 -1" reads as the labels 1 and -1 |
| ModelFile.NegativeCountAsWritten | src/plssvm/parameter.cpp:427-437 | as written, a negative second count passes the sum check |
| ModelFile.CountPairAsWritten | src/plssvm/parameter.cpp:420-437 | the `nr_sv` entry as written: a real second count and a real sum check |
| ModelFile.NegativeCountRejected | src/plssvm/parameter.cpp:427-437 | in the model, a second count with a minus sign is an unsigned conversion error, so `5 -3` is rejected |
| ModelFile.NrSvBeforeLabelAsWritten | src/plssvm/parameter.cpp:440-443 | as written, `nr_sv` before `label` fills labels of 0 |
| ModelFile.NrSvEntryAsWritten | src/plssvm/parameter.cpp:420-443 | the `nr_sv` entry as written: the check, then the fill with the labels read so far |
| ModelFile.ValuesAfterScan | src/plssvm/parameter.cpp:420-443 | the labels pointer once the header loop stops: null until `nr_sv` is read, then the fill of its counts |
| ModelFile.ReadModelValues | src/plssvm/parameter.cpp:420-481 | when the whole file reads, the labels pointer holds the labels the model yields |
| ModelFile.FillAfterLoop | src/plssvm/parameter.cpp:440-443 | filling after the loop gives every value 1 or -1 |
| Parameter.LastSeparator | src/plssvm/parameter.cpp:527-537 | `find_last_of("/\\")`: the last separator, or none |
| Parameter.BaseName | src/plssvm/parameter.cpp:527-537 | the part after the last separator, a suffix of the name without separators |
| Parameter.BaseNameOfPath | src/plssvm/parameter.cpp:527-537 | the base name of `dir/file` is `file` |
| Parameter.BaseNameIdempotent | src/plssvm/parameter.cpp:527-537 | taking the base name twice changes nothing |
| Parameter.DerivedNames | src/plssvm/parameter.cpp:527-537 | the `.model` and `.predict` names differ; two inputs give the same model name iff they share a base name |
| Parameter.ModelNameFromInput | src/plssvm/parameter.cpp:527-531 | the model name ends in `.model` and holds no path separator |
| Parameter.PredictNameFromInput | src/plssvm/parameter.cpp:533-537 | the prediction name ends in `.predict` and holds no path separator |
| Parameter.RenameInput | src/plssvm/parameter.cpp:129-133 | the input name becomes the file, and the model name is either kept or derived from the new input (`RenameInputStable` says which) |
| Parameter.RenameModel | src/plssvm/parameter.cpp:339-343 | the model name becomes the file, and the prediction name is either kept or derived from the input (`RenameModelStable` says which) |
| Parameter.RenameInputStable | src/plssvm/parameter.cpp:129-133 | after reading a data file the input name is the file, and a derived model name follows it |
| Parameter.RenameModelStable | src/plssvm/parameter.cpp:339-343 | after reading a model file the model name is the file, and a derived prediction name follows the input |
| Parameter.UpdateGamma | src/plssvm/parameter.cpp:143-145 | a zero gamma becomes `1 / num_features`; any other stays |
| Parameter.ReadLibsvm | src/plssvm/parameter.cpp:135-159 | the specification of `parse_libsvm`'s reading part: the file read, then the labels kept or dropped (`ReadLibsvmShape`) |
| Parameter.ArffGamma | src/plssvm/parameter.cpp:317-319 | a non-zero gamma, or an empty row, leaves gamma unchanged; otherwise gamma times the row width is 1 |
| Parameter.ReadLibsvmShape | src/plssvm/parameter.cpp:124-159 | rows are all of one positive width; labels, when kept, are ±1 |
| Parameter.Parameter.SignValues | src/plssvm/parameter.cpp:153-156 | every label becomes 1 if positive and -1 otherwise |
| Parameter.Parameter.ReadLibsvmLines | src/plssvm/parameter.cpp:135-159 | the reading part of `parse_libsvm` returns `ReadLibsvm` |
| Parameter.Parameter.SetInputNames | src/plssvm/parameter.cpp:129-133 | updates the input and model names and nothing else |
| Parameter.Parameter.SetLabels | src/plssvm/parameter.cpp:143-158 | updates gamma and the labels and nothing else |
| Parameter.Parameter.ParseLibsvm | src/plssvm/parameter.cpp:124-168 | `parse_libsvm` renames, reads, then updates gamma and the labels on success |
| Parameter.Parameter.ParseArff | src/plssvm/parameter.cpp:171-332 | `parse_arff` renames, reads, then updates gamma and the labels on success |
| Parameter.Parameter.ParseFile | src/plssvm/parameter.cpp:114-121 | a `.arff` name is read as ARFF, any other as LIBSVM |
| Parameter.Parameter.ReadSupportVectors | src/plssvm/parameter.cpp:455-481 | the part after the header loop returns `ReadModelData` |
| Parameter.Parameter.ReadModelLines | src/plssvm/parameter.cpp:345-481 | the reading part of `parse_model_file` returns `ReadModel` |
| Parameter.Parameter.SetModelNames | src/plssvm/parameter.cpp:339-343 | updates the model and prediction names and nothing else |
| Parameter.Parameter.StoreModel | src/plssvm/parameter.cpp:357-481 | writes the kernel fields read, and the support vectors only on success |
| Parameter.Parameter.ParseModelFile | src/plssvm/parameter.cpp:334-490 | `parse_model_file` renames, reads, sets the kernel fields, and sets the labels, support vectors and weights only when the whole file reads |

## Left out

- `ModelFile.CountPair`: reads the second `nr_sv` count as an unsigned integer, as the corrected half of the src/plssvm/parameter.cpp:427-437 row under "## Findings". The source converts it as a real (src/plssvm/parameter.cpp:427). So with `total_sv 2` and `nr_sv 1 1.5` the model reads the counts (1, 1) and succeeds, while the source's sum check 1 + 1.5 != 2 (src/plssvm/parameter.cpp:435) throws. The model does not capture this rejection of a fractional count.
- `StringUtility.ReplaceAllExamples`: proves four of the unit test's five cases with a non-empty `what`. The case that erases every "a" from "a a b c d aa" (tests/detail/string_utility.cpp:114) is not proved. It follows from `StringUtility.Replaced` but takes the solver too long on a text of that length.
- OpenMP and HPX parallelism: every loop is sequential. Where several iterations can throw, the first failing line in order decides the error. For the SYMM kernel the tile order is proved irrelevant (`Blas.ApplyTilesCells`).
- Floating-point arithmetic: `real_type` is Dafny's exact `real`. Rounding, `inf`/`nan`, `std::ceil` on floats (modelled as integer ceiling division), and the float conversions (`fast_float`) are not modelled. The float conversions and the kernel-type stream parsing are opaque parameters that may fail.
- The floating-point `convert_to` overloads and the `std::string` overload: only the integral one is modelled.
- `Parameter.UpdateGamma`: the default gamma `1 / num_features` is stated over reals, not floats.
- `Parameter.ArffGamma`: the model divides by the width it gives each row, which is `max_size - 1` with a CLASS attribute and `max_size` without one. Without CLASS the model's default gamma is therefore `1 / max_size`, while src/plssvm/parameter.cpp:317-319 gives `1 / (max_size - 1)`, because it goes with the corrected row width of the parameter.cpp:221-227 row under "## Findings". When the width is 0, gamma is left unchanged; the float division in the source gives infinity.
- All writers (`write_libsvm_model_header`, `write_libsvm_model_data`, the data writers) and `operator<<` at src/plssvm/parameter.cpp:492-523: output formatting only.
- File I/O: the reader is a function from a file name and a comment character to lines. Comment stripping and line splitting belong to `file_reader`, which is not part of this model.
- The OpenCL runtime calls inside `device_ptr` (`clCreateBuffer`, `clEnqueue*`, `clReleaseMemObject`): the buffer is an in-memory array, and the queue is an opaque number.
- `DevicePtr.DevicePtr.MemcpyToDevice`: requires `pos <= size`. The source does not check it, and `size_ - pos` would wrap.
- `DevicePtr.DevicePtr.MemcpyToHost`: requires `pos <= size`, for the same reason.
- `DevicePtr.DevicePtr.WriteBuffer`: requires `pos <= size`. It is the transfer inside `memcpy_to_device` (src/plssvm/backends/OpenCL/detail/device_ptr.cpp:241-250), and the source's `size_ - pos` would wrap there too.
- `DevicePtr.DevicePtr.ReadBuffer`: requires `pos <= size`. It is the transfer inside `memcpy_to_host` (src/plssvm/backends/OpenCL/detail/device_ptr.cpp:274-283), with the same wrap.
- `StringUtility.ReplaceAll`: requires a non-empty `what`. With an empty one the source's loop never ends; the test case with an empty `what` depends on the library's `find` finding it at the end.
- `StringUtility.TrimRight`, `StringUtility.Trim` and `StringUtility.Split` are not defined in the modelled header. They are modelled after their unit tests in tests/detail/string_utility.cpp.
- `Parameter.Parameter.ParseFile`: states only success or failure and the data read, not the full field update. The two branches are `ParseArff` and `ParseLibsvm`, whose contracts state it.
- `LibsvmFile.Place` (and so `LibsvmFile.WritePair` and `LibsvmFile.ReadFeatures`): the row grows to `index + 1` for every index. In src/plssvm/parameter.cpp:68-70 the index is an `unsigned long`, so at index 2^64-1 the sum `index + 1` wraps to 0. The source then calls `resize(0)` and writes `vline[index]` out of bounds, which is undefined behaviour. The model does not capture this wrap.
- `ModelFile.LabelPair`: labels are converted as reals and truncated into `int`. A conversion outside the range of `int` is not modelled.
- `Parameter.Parameter.ParseModelFile`: the source sets `value_ptr` at the `nr_sv` line with the labels read up to then. The model fills it from the counts of the last `nr_sv` line and the labels the header loop has read when it stops (`ModelFile.ValuesAfterScan`), following the src/plssvm/parameter.cpp:440-443 row under "## Findings". This value is kept even when a later check or the support-vector section fails, as in the source. It is null when no `nr_sv` line was read, matching the reset at src/plssvm/parameter.cpp:348. The two differ only when a `label` line follows `nr_sv`, the case that row records.
- `Parameter.Parameter.StoreModel`: writes the labels pointer as `ModelFile.ValuesAfterScan`, after a failure as well as after a success. It differs from the source's pointer only when a `label` line follows `nr_sv`, the case the src/plssvm/parameter.cpp:440-443 row under "## Findings" records.
- `Parameter.Parameter.ParseModelFile`: a repeated `total_sv` entry is read again as the source does. The state of partially filled vectors after a throw is not modelled.
- `ModelFile.ReadModelData`: a support-vector section shorter than `total_sv` is reported as an error. The source reads lines past the end of the file there. Likewise, ARFF's missing data section is an error in the model; in the source the unsigned line count underflows and the reader throws `length_error`.
- `LibsvmParsing.ParseLibsvmData`: the label type is generic, with its conversion as a parameter.
- `ModelHeader.TextLabel`: `split_as` for `std::string` labels is defined in include/plssvm/detail/string_conversion.hpp, which is not part of this model. The model takes each piece as it stands. Any other label type's conversion is a parameter, of which only `int` (`ModelHeader.IntLabel`) is spelled out.
- `StringUtility.ConvertRejectsNonNumeric`: the error names the trimmed text, as include/plssvm/detail/string_utility.hpp:123-129 formats it. The unit test at tests/detail/string_conversion.cpp:83 expects the untrimmed text "  abc 1" in that message; the model follows the header.
- `Parameter.Parameter.constructor`: the model's own initialiser. It stands in for the defaults of the `parameter` class declared in include/plssvm/parameter.hpp, which is not part of this model, so it has no row under "## Model".
- The HIP, SYCL and stdpar backends, the CG solver and the kernel-matrix assembly: only their declarations appear in the files modelled.
- `kernel_function`, telemetry and the Python bindings are not part of this model.

## Findings

| source | as written | input that shows it | evidently intended | confidence | as-written member | corrected member |
|---|---|---|---|---|---|---|
| include/plssvm/detail/io/libsvm_parsing.hpp:164-190 | the index is the text between the previous value and the next ':'; it is never checked against the feature count, which comes from the last ':' only | the line "1 1:2 5 3:4" has 3 features but writes column 4 | an index above the feature count is rejected | not executed | LibsvmParsing.UnboundedColumnExample | LibsvmParsing.BoundedColumnExample |
| include/plssvm/detail/io/libsvm_model_parsing.hpp:432-451 | the model-data feature loop writes `vline[index]` with no check against the feature count, which is read from each line's last ':' | with two classes, the data line "1 1:2 5 3:4" has 3 features but its second value goes to column 4 | an index above the feature count is rejected | not executed | ModelData.UnorderedTailAsWritten | ModelData.UnorderedTailRejected |
| include/plssvm/detail/io/libsvm_model_parsing.hpp:394-408 | on a line without ':' the separator search wraps and restarts at the start of the line, so the loop runs until it sees too many weights | a support vector with all features zero, written as "0.5" with one class weight, is rejected | the weights end at the end of the line | not executed | ModelData.WrapAroundExample | ModelData.LineWeights |
| include/plssvm/detail/io/libsvm_model_parsing.hpp:409-508 | the minimum `max - 1` is 0 for two classes, so a line without weights is accepted as one-vs-one; the remap then reads the weight row it removed | two classes and the line "1:0.5" | every line carries at least one weight per other class | not executed | ModelData.TwoClassesNoWeightsAsWritten | ModelData.NoWeightsRejected |
| include/plssvm/detail/io/libsvm_model_parsing.hpp:485-513 | the remap trusts `nr_sv`; with fewer data lines than support vectors it reads past the weights read | `nr_sv 2 2 2` with three data lines | fewer lines than support vectors is rejected | not executed | ModelData.ShortDataAsWritten | ModelData.ShortDataRejected |
| include/plssvm/detail/io/libsvm_model_parsing.hpp:309-312 | `std::accumulate` over `size_type` wraps, so counts that overflow can pass the sum check | `nr_sv 18446744073709551615 2` with `total_sv 1` | the exact sum equals `total_sv` | not executed | ModelHeader.NrSvSumWrapsAsWritten | ModelHeader.NrSvSumChecked |
| src/plssvm/parameter.cpp:221-227 | rows are sized `max_size - 1` even without a CLASS attribute, while the dense loop fills `max_size` columns | one attribute, no CLASS, line "1," | rows of one value per non-class attribute | not executed | Arff.UnlabelledWidthAsWritten | Arff.ArffPoints |
| src/plssvm/parameter.cpp:266-271 | a sparse index other than the class index is written unchecked | "{3 1}" with two columns writes column 3 | an index past the row is rejected | not executed | Arff.SparseIndexExample | Arff.SparseInRange |
| src/plssvm/parameter.cpp:427-437 | the second `nr_sv` count is converted as a real, so a negative count passes the sum check | `total_sv 2`, `nr_sv 5 -3` | both counts are non-negative and at most the total; the corrected reading also reads a fractional second count by its integer prefix (see `ModelFile.CountPair` under "## Left out") | not executed | ModelFile.NegativeCountAsWritten | ModelFile.NegativeCountRejected |
| src/plssvm/parameter.cpp:440-443 | the labels are filled at the `nr_sv` line with the labels read so far | `nr_sv 1 1` before `label 1 -1` fills labels of 0 | the labels of the file wherever `label` stands | not executed | ModelFile.NrSvBeforeLabelAsWritten | ModelFile.FillAfterLoop |
