/** String helpers of the library (string_utility.hpp): prefix, suffix and substring
  tests, leading-space trimming, in-place replacement and lower-casing, and the
  conversion of a string to an integral value. Strings are sequences of `char`. */
module StringUtility {
  import opened Wrappers

  function Min(a: nat, b: nat): nat {
    if a <= b then a else b
  }

  // ---------------------------------------------------------------- prefix / suffix

  /** `starts_with(str, sv)`: the substring of length |sv| at 0 (clamped to |str|) equals `sv`. */
  function StartsWith(str: string, sv: string): (b: bool)
    ensures b <==> sv <= str
  {
    str[..Min(|sv|, |str|)] == sv
  }

  /** `starts_with(str, c)`: false on the empty string, otherwise compares the first char. */
  function StartsWithChar(str: string, c: char): (b: bool)
    ensures b <==> StartsWith(str, [c])
    ensures b ==> |str| > 0
  {
    |str| > 0 && str[0] == c
  }

  /** `ends_with(str, sv)`: |sv| <= |str| and the last |sv| characters are `sv`. */
  function EndsWith(str: string, sv: string): (b: bool)
    ensures b <==> |sv| <= |str| && str[..|str| - |sv|] + sv == str
  {
    |str| >= |sv| && str[|str| - |sv|..] == sv
  }

  /** `ends_with(str, c)`: false on the empty string, otherwise compares the last char. */
  function EndsWithChar(str: string, c: char): (b: bool)
    ensures b <==> EndsWith(str, [c])
    ensures b ==> |str| > 0
  {
    |str| > 0 && str[|str| - 1] == c
  }

  function Reverse(s: string): (r: string)
    ensures |r| == |s|
    ensures forall k :: 0 <= k < |s| ==> r[k] == s[|s| - 1 - k]
  {
    seq(|s|, k requires 0 <= k < |s| => s[|s| - 1 - k])
  }

  /** A suffix test is a prefix test on the reversed strings. */
  lemma EndsWithIsReversedStartsWith(str: string, sv: string)
    ensures EndsWith(str, sv) <==> StartsWith(Reverse(str), Reverse(sv))
  {
    var rs, rv := Reverse(str), Reverse(sv);
    if EndsWith(str, sv) {
      forall k | 0 <= k < |sv|
        ensures rs[k] == rv[k]
      {
        assert str[|str| - |sv|..][|sv| - 1 - k] == sv[|sv| - 1 - k];
      }
      assert rs[..|rv|] == rv;
    }
    if StartsWith(rs, rv) {
      var suffix := str[|str| - |sv|..];
      forall k | 0 <= k < |sv|
        ensures suffix[k] == sv[k]
      {
        assert rs[|sv| - 1 - k] == rv[|sv| - 1 - k];
      }
      assert suffix == sv;
    }
  }

  /** The tests' expectations on "abc". */
  lemma PrefixSuffixExamples()
    ensures StartsWith("abc", "abc") && StartsWith("abc", "ab")
    ensures !StartsWith("abc", "abcd") && !StartsWith("abc", "bc")
    ensures StartsWithChar("abc", 'a') && !StartsWithChar("abc", 'c') && !StartsWithChar("abc", 'd')
    ensures EndsWith("abc", "abc") && !EndsWith("abc", "ab")
    ensures !EndsWith("abc", "abcd") && EndsWith("abc", "bc")
    ensures !EndsWithChar("abc", 'a') && EndsWithChar("abc", 'c') && !EndsWithChar("abc", 'd')
  {
    assert "abc"[..2] == "ab";
    assert "abc"[1..] == "bc";
    assert "abc"[..2] != "bc";
    assert "abc"[1..] != "ab";
  }

  // ---------------------------------------------------------------- searching

  /** `sv` occurs in `str` starting at index `i`. */
  predicate OccursAt(str: string, sv: string, i: nat) {
    i + |sv| <= |str| && str[i..i + |sv|] == sv
  }

  /** `str.find(sv, from)`: the first occurrence at or after `from`, or `None` for npos.
    An empty `sv` is found at `from` whenever `from <= |str|`. */
  function Find(str: string, sv: string, from: nat): (r: Option<nat>)
    ensures r.Some? ==> from <= r.value && OccursAt(str, sv, r.value)
    ensures forall i: nat :: from <= i && (r.None? || i < r.value) ==> !OccursAt(str, sv, i)
    decreases |str| - from
  {
    if from + |sv| > |str| then None
    else if str[from..from + |sv|] == sv then Some(from)
    else Find(str, sv, from + 1)
  }

  /** `contains(str, sv)`: `str.find(sv) != npos`. */
  function Contains(str: string, sv: string): (b: bool)
    ensures b <==> exists i: nat :: OccursAt(str, sv, i)
  {
    Find(str, sv, 0).Some?
  }

  lemma OccursAtChar(str: string, c: char, i: nat)
    ensures OccursAt(str, [c], i) <==> i < |str| && str[i] == c
  {
    if i < |str| {
      assert str[i..i + 1] == [str[i]];
    }
  }

  lemma FindChar(str: string, c: char)
    ensures Find(str, [c], 0).Some? <==> c in str
  {
    if c in str {
      var i :| 0 <= i < |str| && str[i] == c;
      OccursAtChar(str, c, i);
    }
    var r := Find(str, [c], 0);
    if r.Some? {
      OccursAtChar(str, c, r.value);
    }
  }

  /** `contains(str, c)`: `str.find(c) != npos`. */
  function ContainsChar(str: string, c: char): (b: bool)
    ensures b <==> c in str
  {
    FindChar(str, c);
    Find(str, [c], 0).Some?
  }

  lemma ContainsExamples()
    ensures Contains("abc", "abc") && Contains("abc", "ab") && Contains("abc", "bc")
    ensures !Contains("abc", "abcd")
    ensures ContainsChar("abc", 'a') && ContainsChar("abc", 'c') && !ContainsChar("abc", 'd')
  {
    assert OccursAt("abc", "abc", 0);
    assert OccursAt("abc", "ab", 0) by { assert "abc"[0..2] == "ab"; }
    assert OccursAt("abc", "bc", 1) by { assert "abc"[1..3] == "bc"; }
  }

  // ---------------------------------------------------------------- trimming

  /** `find_first_not_of(c, from)` clamped to |str|: the first index at or after `from`
    whose character differs from `c`, or |str| when there is none. */
  function FirstNotOf(str: string, c: char, from: nat): (p: nat)
    requires from <= |str|
    ensures from <= p <= |str|
    ensures forall k :: from <= k < p ==> str[k] == c
    ensures p < |str| ==> str[p] != c
    decreases |str| - from
  {
    if from == |str| || str[from] != c then from else FirstNotOf(str, c, from + 1)
  }

  /** The first index not holding `c` is determined by where the run of `c` stops. */
  lemma FirstNotOfIs(str: string, c: char, from: nat, p: nat)
    requires from <= p <= |str|
    requires forall k :: from <= k < p ==> str[k] == c
    requires p < |str| ==> str[p] != c
    ensures FirstNotOf(str, c, from) == p
  {
  }

  /** `trim_left`: the suffix of `str` that starts at its first non-space character. */
  function TrimLeft(str: string): (r: string)
    ensures |r| <= |str| && str[|str| - |r|..] == r
    ensures forall k :: 0 <= k < |str| - |r| ==> str[k] == ' '
    ensures r == [] || r[0] != ' '
  {
    str[FirstNotOf(str, ' ', 0)..]
  }

  function Spaces(n: nat): (s: string)
    ensures |s| == n && forall k :: 0 <= k < n ==> s[k] == ' '
  {
    seq(n, _ => ' ')
  }

  /** Trimming undoes any amount of leading padding in front of a string that does not
    itself start with a space. */
  lemma TrimLeftPadded(n: nat, r: string)
    requires r == [] || r[0] != ' '
    ensures TrimLeft(Spaces(n) + r) == r
  {
    var s := Spaces(n) + r;
    FirstNotOfIs(s, ' ', 0, n);
    assert s[n..] == r;
  }

  /** Every string is its leading spaces followed by its trimmed form. */
  lemma TrimLeftSplits(str: string)
    ensures str == Spaces(|str| - |TrimLeft(str)|) + TrimLeft(str)
  {
    var r := TrimLeft(str);
    var n := |str| - |r|;
    assert str[..n] == Spaces(n);
    assert str == str[..n] + str[n..];
  }

  lemma TrimLeftIdempotent(str: string)
    ensures TrimLeft(TrimLeft(str)) == TrimLeft(str)
  {
    TrimLeftPadded(0, TrimLeft(str));
    assert Spaces(0) + TrimLeft(str) == TrimLeft(str);
  }

  lemma TrimLeftAllSpaces(str: string)
    requires forall k :: 0 <= k < |str| ==> str[k] == ' '
    ensures TrimLeft(str) == ""
  {
  }

  /** `trim_left` cuts exactly the run of spaces in front of index `n`. */
  lemma TrimLeftAt(str: string, n: nat)
    requires n <= |str|
    requires forall k :: 0 <= k < n ==> str[k] == ' '
    requires n < |str| ==> str[n] != ' '
    ensures TrimLeft(str) == str[n..]
  {
    FirstNotOfIs(str, ' ', 0, n);
  }

  lemma TrimLeftExamples()
    ensures TrimLeft("") == "" && TrimLeft("abc") == "abc" && TrimLeft("  abc") == "abc"
    ensures TrimLeft("abc   ") == "abc   " && TrimLeft(" abc  ") == "abc  "
    ensures TrimLeft(" a b c ") == "a b c "
  {
    TrimLeftAt("abc", 0);
    TrimLeftAt("  abc", 2);
    assert "  abc"[2..] == "abc";
    TrimLeftAt("abc   ", 0);
    TrimLeftAt(" abc  ", 1);
    assert " abc  "[1..] == "abc  ";
    TrimLeftAt(" a b c ", 1);
    assert " a b c "[1..] == "a b c ";
  }

  // ---------------------------------------------------------------- replace_all

  /** Left-to-right, non-overlapping replacement of every occurrence of `what` by `with`;
    scanning resumes behind the replaced occurrence, so inserted text is never rescanned. */
  function Replaced(s: string, what: string, with: string): string
    requires |what| > 0
    decreases |s|
  {
    if |s| < |what| then s
    else if s[..|what|] == what then with + Replaced(s[|what|..], what, with)
    else [s[0]] + Replaced(s[1..], what, with)
  }

  lemma OccursAtShift(s: string, sv: string, pos: nat, i: nat)
    requires pos <= |s|
    ensures OccursAt(s[pos..], sv, i) <==> OccursAt(s, sv, pos + i)
  {
    if pos + i + |sv| <= |s| {
      assert s[pos..][i..i + |sv|] == s[pos + i..pos + i + |sv|];
    }
  }

  /** A text without an occurrence of `what` before `upTo` is copied through up to there. */
  lemma {:induction false} ReplacedSkips(s: string, what: string, with: string, upTo: nat)
    requires |what| > 0 && upTo <= |s|
    requires forall i: nat :: i < upTo ==> !OccursAt(s, what, i)
    ensures Replaced(s, what, with) == s[..upTo] + Replaced(s[upTo..], what, with)
    decreases upTo
  {
    if upTo > 0 {
      assert !OccursAt(s, what, 0);
      if |s| < |what| {
        assert OccursAt(s, what, upTo - 1) == false;
        // too short: Replaced copies `s`; both sides equal `s`
        assert Replaced(s[upTo..], what, with) == s[upTo..];
        assert s[..upTo] + s[upTo..] == s;
      } else {
        assert s[..|what|] != what;
        var t := s[1..];
        forall i: nat | i < upTo - 1
          ensures !OccursAt(t, what, i)
        {
          assert !OccursAt(s, what, i + 1);
          if i + |what| <= |t| {
            assert t[i..i + |what|] == s[i + 1..i + 1 + |what|];
          }
        }
        ReplacedSkips(t, what, with, upTo - 1);
        assert t[upTo - 1..] == s[upTo..];
        assert [s[0]] + t[..upTo - 1] == s[..upTo];
      }
    }
  }

  /** A text without any occurrence of `what` is left unchanged. */
  lemma ReplacedNoOccurrence(s: string, what: string, with: string)
    requires |what| > 0
    requires forall i: nat :: !OccursAt(s, what, i)
    ensures Replaced(s, what, with) == s
  {
    ReplacedSkips(s, what, with, |s|);
    assert s[|s|..] == [];
    assert s[..|s|] == s;
  }

  /** Replacing a word by itself changes nothing. */
  lemma {:induction false} ReplacedSelf(s: string, what: string)
    requires |what| > 0
    ensures Replaced(s, what, what) == s
    decreases |s|
  {
    if |s| < |what| {
    } else if s[..|what|] == what {
      ReplacedSelf(s[|what|..], what);
      assert what + s[|what|..] == s;
    } else {
      ReplacedSelf(s[1..], what);
      assert [s[0]] + s[1..] == s;
    }
  }

  /** Replacing from `pos` on copies up to the first occurrence `p`, then inserts `with`. */
  lemma ReplacedFrom(res: string, what: string, with: string, pos: nat, p: nat)
    requires |what| > 0 && pos <= |res|
    requires Find(res, what, pos) == Some(p)
    ensures pos <= p && p + |what| <= |res|
    ensures Replaced(res[pos..], what, with)
      == res[pos..p] + (with + Replaced(res[p + |what|..], what, with))
  {
    NoneBefore(res, what, pos, p);
    ReplacedSkips(res[pos..], what, with, p - pos);
    SliceOfSlice(res, pos, p);
    ReplacedAtOccurrence(res, what, with, p);
  }

  /** `what` does not occur in `res[pos..]` before the first occurrence `p` found from `pos`. */
  lemma NoneBefore(res: string, what: string, pos: nat, p: nat)
    requires pos <= |res| && Find(res, what, pos) == Some(p)
    ensures pos <= p <= |res|
    ensures forall i: nat :: i < p - pos ==> !OccursAt(res[pos..], what, i)
  {
    forall i: nat | i < p - pos
      ensures !OccursAt(res[pos..], what, i)
    {
      OccursAtShift(res, what, pos, i);
    }
  }

  /** The slices of `res[pos..]` before and behind `p`. */
  lemma SliceOfSlice(res: string, pos: nat, p: nat)
    requires pos <= p <= |res|
    ensures res[pos..][p - pos..] == res[p..] && res[pos..][..p - pos] == res[pos..p]
  {
  }

  /** At an occurrence, `with` replaces it and the rest is replaced behind it. */
  lemma ReplacedAtOccurrence(res: string, what: string, with: string, p: nat)
    requires |what| > 0 && OccursAt(res, what, p)
    ensures Replaced(res[p..], what, with) == with + Replaced(res[p + |what|..], what, with)
  {
    var found := res[p..];
    assert found[..|what|] == what;
    assert found[|what|..] == res[p + |what|..];
  }

  /** One round of the loop: what is already done grows by the text up to the
    occurrence `p` and `with`; the search resumes behind the replaced occurrence. */
  lemma ReplaceStep(res: string, what: string, with: string, pos: nat, p: nat)
    requires |what| > 0 && pos <= |res|
    requires Find(res, what, pos) == Some(p)
    ensures p + |what| <= |res|
    ensures res[..pos] + Replaced(res[pos..], what, with)
      == (res[..p] + with) + Replaced(res[p + |what|..], what, with)
  {
    ReplacedFrom(res, what, with, pos, p);
    Regroup(res[..pos], res[pos..p], with, Replaced(res[p + |what|..], what, with));
    PrefixJoin(res, pos, p);
  }

  lemma Regroup(a: string, b: string, c: string, d: string)
    ensures a + (b + (c + d)) == ((a + b) + c) + d
  {
  }

  lemma PrefixJoin(res: string, pos: nat, p: nat)
    requires pos <= p <= |res|
    ensures res[..pos] + res[pos..p] == res[..p]
  {
  }

  lemma ConcatSplit(a: string, b: string)
    ensures (a + b)[..|a|] == a && (a + b)[|a|..] == b
  {
  }

  /** When no occurrence is left behind `pos`, the text is complete. */
  lemma ReplaceDone(res: string, what: string, with: string, pos: nat)
    requires |what| > 0 && pos <= |res|
    requires Find(res, what, pos).None?
    ensures res[..pos] + Replaced(res[pos..], what, with) == res
  {
    forall i: nat
      ensures !OccursAt(res[pos..], what, i)
    {
      OccursAtShift(res, what, pos, i);
    }
    ReplacedNoOccurrence(res[pos..], what, with);
    assert res[..pos] + res[pos..] == res;
  }

  /** `replace_all(str, what, with)` for a non-empty `what` (an empty one makes the
    source loop forever). `str` is rewritten in place; `pos` marks where the next search starts. */
  method ReplaceAll(str: string, what: string, with: string) returns (res: string)
    requires |what| > 0
    ensures res == Replaced(str, what, with)
  {
    res := str;
    var pos: nat := 0;
    var found := Find(res, what, pos);
    while found.Some?
      invariant pos <= |res|
      invariant found == Find(res, what, pos)
      invariant res[..pos] + Replaced(res[pos..], what, with) == Replaced(str, what, with)
      decreases |res| - pos
    {
      var p := found.value;
      ReplaceStep(res, what, with, pos, p);
      var done, tail := res[..p] + with, res[p + |what|..];
      ConcatSplit(done, tail);
      res := done + tail;
      pos := |done|;
      found := Find(res, what, pos);
    }
    ReplaceDone(res, what, with, pos);
  }

  /** The replace_all unit test's cases whose `what` is non-empty, except the one that erases
    every "a" from "a a b c d aa". */
  lemma ReplaceAllExamples()
    ensures Replaced("aaa", "a", "b") == "bbb"
    ensures Replaced("aaa", "b", "c") == "aaa"
    ensures Replaced("aaa", "aa", "b") == "ba"
    ensures Replaced("a", "aa", "b") == "a"
  {
    assert "aaa"[..1] == "a" && "aaa"[1..] == "aa" && "aa"[1..] == "a";
    assert "aaa"[..2] == "aa" && "aaa"[2..] == "a";
    assert Replaced("", "a", "b") == "";
    assert Replaced("a", "a", "b") == "b";
    assert Replaced("aa", "a", "b") == "bb";
    assert Replaced("a", "b", "c") == "a";
    assert Replaced("aa", "b", "c") == "aa";
  }

  // ---------------------------------------------------------------- to_lower_case

  /** `std::tolower` in the "C" locale: only 'A'..'Z' change. */
  function ToLower(c: char): char {
    if 'A' <= c <= 'Z' then (c as int + 32) as char else c
  }

  function LowerString(s: string): (r: string)
    ensures |r| == |s|
    ensures forall k :: 0 <= k < |s| ==> r[k] == ToLower(s[k])
  {
    seq(|s|, k requires 0 <= k < |s| => ToLower(s[k]))
  }

  /** After lower-casing, no upper-case letter is left, and every other character is kept. */
  lemma LowerStringNoUpper(s: string)
    ensures forall k :: 0 <= k < |s| ==> !('A' <= LowerString(s)[k] <= 'Z')
    ensures forall k :: 0 <= k < |s| && !('A' <= s[k] <= 'Z') ==> LowerString(s)[k] == s[k]
  {
  }

  lemma LowerStringIdempotent(s: string)
    ensures LowerString(LowerString(s)) == LowerString(s)
  {
  }

  lemma LowerStringExamples()
    ensures LowerString("") == "" && LowerString("abc") == "abc"
    ensures LowerString("ABC") == "abc" && LowerString(" AbC 1") == " abc 1"
  {
  }

  /** `to_lower_case`: transforms `str` in place and returns the same string. */
  method ToLowerCase(str: array<char>) returns (res: array<char>)
    modifies str
    ensures res == str
    ensures str[..] == LowerString(old(str[..]))
  {
    var k := 0;
    while k < str.Length
      invariant 0 <= k <= str.Length
      invariant forall i :: 0 <= i < k ==> str[i] == ToLower(old(str[i]))
      invariant forall i :: k <= i < str.Length ==> str[i] == old(str[i])
    {
      str[k] := ToLower(str[k]);
      k := k + 1;
    }
    res := str;
  }

  // ---------------------------------------------------------------- convert_to (integral)

  predicate IsDigit(c: char) {
    '0' <= c <= '9'
  }

  predicate AllDigits(s: string) {
    forall k :: 0 <= k < |s| ==> IsDigit(s[k])
  }

  /** The value of a decimal digit (0 for any other character). */
  function DigitValue(c: char): (d: nat)
    ensures d < 10
  {
    if IsDigit(c) then c as int - '0' as int else 0
  }

  function DigitChar(d: nat): (c: char)
    requires d < 10
    ensures IsDigit(c) && DigitValue(c) == d
  {
    ('0' as int + d) as char
  }

  /** Decimal value of a run of digits, most significant first. */
  function DigitsValue(s: string): nat {
    if |s| == 0 then 0 else DigitsValue(s[..|s| - 1]) * 10 + DigitValue(s[|s| - 1])
  }

  /** End of the maximal run of digits starting at `from`. */
  function DigitRun(s: string, from: nat): (e: nat)
    requires from <= |s|
    ensures from <= e <= |s|
    ensures forall k :: from <= k < e ==> IsDigit(s[k])
    ensures e < |s| ==> !IsDigit(s[e])
    decreases |s| - from
  {
    if from == |s| || !IsDigit(s[from]) then from else DigitRun(s, from + 1)
  }

  /** The end of a digit run is determined by where the digits stop. */
  lemma DigitRunIs(s: string, from: nat, e: nat)
    requires from <= e <= |s|
    requires forall k :: from <= k < e ==> IsDigit(s[k])
    requires e < |s| ==> !IsDigit(s[e])
    ensures DigitRun(s, from) == e
  {
  }

  /** Length of the sign `std::from_chars` accepts: a '-' for signed types only. */
  function SignLength(t: string, lo: int): (n: nat)
    ensures n <= |t|
    ensures n == 1 <==> lo < 0 && |t| > 0 && t[0] == '-'
  {
    if lo < 0 && |t| > 0 && t[0] == '-' then 1 else 0
  }

  /** The exception `convert_to` throws: the trimmed text and the target type's name. */
  datatype ConversionError = CannotConvert(text: string, typeName: string) {
    function Message(): string {
      "Can't convert '" + text + "' to a value of type " + typeName + "!"
    }
  }

  /** `std::from_chars` into an integral type whose values are `lo..hi`: an optional sign
    and the longest run of decimal digits; no digits, or a value outside `lo..hi`, is an
    error. The message names the trimmed text. */
  function FromChars(t: string, lo: int, hi: int, typeName: string): (r: Result<int, ConversionError>)
    ensures r.Success? ==> lo <= r.value <= hi
    ensures r.Failure? ==> r.error == CannotConvert(t, typeName)
  {
    var start := SignLength(t, lo);
    var e := DigitRun(t, start);
    if e == start then Failure(CannotConvert(t, typeName))
    else
      var m := DigitsValue(t[start..e]);
      var v: int := if start == 1 then -(m as int) else m;
      if lo <= v <= hi then Success(v) else Failure(CannotConvert(t, typeName))
  }

  /** `convert_to<T>` for an integral `T`: leading spaces are trimmed first. */
  function ParseIntegral(str: string, lo: int, hi: int, typeName: string): (r: Result<int, ConversionError>)
    ensures r.Success? ==> lo <= r.value <= hi
    ensures r.Failure? ==> r.error == CannotConvert(TrimLeft(str), typeName)
  {
    FromChars(TrimLeft(str), lo, hi, typeName)
  }

  lemma DigitsValueStep(t: string, start: nat, pos: nat)
    requires start <= pos < |t|
    ensures DigitsValue(t[start..pos + 1]) == DigitsValue(t[start..pos]) * 10 + DigitValue(t[pos])
  {
    var s := t[start..pos + 1];
    assert s[..|s| - 1] == t[start..pos];
    assert s[|s| - 1] == t[pos];
  }

  /** The digit loop of `std::from_chars`: advances a cursor over the digits at `start`,
    accumulating their value. */
  method ScanDigits(t: string, start: nat) returns (pos: nat, m: nat)
    requires start <= |t|
    ensures pos == DigitRun(t, start)
    ensures m == DigitsValue(t[start..pos])
  {
    pos, m := start, 0;
    while pos < |t| && IsDigit(t[pos])
      invariant start <= pos <= |t|
      invariant forall k :: start <= k < pos ==> IsDigit(t[k])
      invariant m == DigitsValue(t[start..pos])
      decreases |t| - pos
    {
      DigitsValueStep(t, start, pos);
      m := m * 10 + DigitValue(t[pos]);
      pos := pos + 1;
    }
    DigitRunIs(t, start, pos);
  }

  /** `convert_to<T>`: trims `str`, then converts it, failing with the library's message. */
  method ConvertToIntegral(str: string, lo: int, hi: int, typeName: string) returns (r: Result<int, ConversionError>)
    ensures r == ParseIntegral(str, lo, hi, typeName)
  {
    var t := TrimLeft(str);
    var start := SignLength(t, lo);
    var pos, m := ScanDigits(t, start);
    if pos == start {
      r := Failure(CannotConvert(t, typeName));
    } else {
      var v: int := if start == 1 then -(m as int) else m;
      if lo <= v <= hi {
        r := Success(v);
      } else {
        r := Failure(CannotConvert(t, typeName));
      }
    }
  }

  /** Decimal digits of `n`, without leading zeros. */
  function Decimal(n: nat): (s: string)
    ensures |s| > 0 && AllDigits(s)
  {
    if n < 10 then [DigitChar(n)] else Decimal(n / 10) + [DigitChar(n % 10)]
  }

  lemma {:induction false} DecimalValue(n: nat)
    ensures DigitsValue(Decimal(n)) == n
  {
    if n >= 10 {
      DecimalValue(n / 10);
      var s := Decimal(n);
      assert s[..|s| - 1] == Decimal(n / 10);
    }
  }

  /** The text `std::to_chars` produces for `v`. */
  function Render(v: int): (s: string)
    ensures |s| > 0 && s[0] != ' '
  {
    if v < 0 then "-" + Decimal(-v) else Decimal(v)
  }

  /** Digits `d` at `from`, followed by a tail that does not continue them, form the run. */
  lemma DigitRunOver(s: string, d: string, rest: string, from: nat)
    requires from + |d| + |rest| == |s|
    requires s[from..] == d + rest
    requires AllDigits(d) && (rest == [] || !IsDigit(rest[0]))
    ensures DigitRun(s, from) == from + |d|
    ensures s[from..from + |d|] == d
  {
    forall k | from <= k < from + |d|
      ensures IsDigit(s[k])
    {
      assert s[k] == s[from..][k - from];
    }
    if from + |d| < |s| {
      assert s[from + |d|] == s[from..][|d|];
    }
    DigitRunIs(s, from, from + |d|);
    assert s[from..from + |d|] == s[from..][..|d|];
  }

  /** `from_chars` on a sign of length `start`, digits `d` and a tail that does not
    continue them yields the signed value of `d`, if it fits. */
  lemma FromCharsDigits(t: string, d: string, rest: string, start: nat, lo: int, hi: int, typeName: string)
    requires start == SignLength(t, lo)
    requires start + |d| + |rest| == |t| && t[start..] == d + rest
    requires |d| > 0 && AllDigits(d) && (rest == [] || !IsDigit(rest[0]))
    ensures var v: int := if start == 1 then -(DigitsValue(d) as int) else DigitsValue(d);
      FromChars(t, lo, hi, typeName) == if lo <= v <= hi then Success(v) else Failure(CannotConvert(t, typeName))
  {
    var e := DigitRun(t, start);
    assert e == start + |d| && t[start..e] == d by {
      DigitRunOver(t, d, rest, start);
    }
  }

  /** `from_chars` reads back the rendering of an in-range value followed by a tail that
    does not continue the digits. */
  lemma FromCharsRendered(v: int, rest: string, lo: int, hi: int, typeName: string)
    requires lo <= v <= hi
    requires rest == [] || !IsDigit(rest[0])
    ensures FromChars(Render(v) + rest, lo, hi, typeName) == Success(v)
  {
    if v < 0 {
      FromCharsNegative(v, rest, lo, hi, typeName);
    } else {
      FromCharsNonNegative(v, rest, lo, hi, typeName);
    }
  }

  lemma FromCharsNegative(v: int, rest: string, lo: int, hi: int, typeName: string)
    requires lo <= v <= hi && v < 0
    requires rest == [] || !IsDigit(rest[0])
    ensures FromChars(Render(v) + rest, lo, hi, typeName) == Success(v)
  {
    var t := Render(v) + rest;
    var d := Decimal(-v);
    assert t[0] == '-' && t[1..] == d + rest;
    DecimalValue(-v);
    FromCharsValue(t, d, rest, 1, v, lo, hi, typeName);
  }

  lemma FromCharsNonNegative(v: int, rest: string, lo: int, hi: int, typeName: string)
    requires lo <= v <= hi && v >= 0
    requires rest == [] || !IsDigit(rest[0])
    ensures FromChars(Render(v) + rest, lo, hi, typeName) == Success(v)
  {
    var t := Render(v) + rest;
    var d := Decimal(v);
    assert t == d + rest;
    assert IsDigit(t[0]);
    assert t[0..] == d + rest;
    DecimalValue(v);
    FromCharsValue(t, d, rest, 0, v, lo, hi, typeName);
  }

  /** Digits `d` after the sign, whose value with the sign is the in-range `v`, convert to `v`. */
  lemma FromCharsValue(t: string, d: string, rest: string, start: nat, v: int, lo: int, hi: int, typeName: string)
    requires start == SignLength(t, lo)
    requires start + |d| + |rest| == |t| && t[start..] == d + rest
    requires |d| > 0 && AllDigits(d) && (rest == [] || !IsDigit(rest[0]))
    requires v == if start == 1 then -(DigitsValue(d) as int) else DigitsValue(d)
    requires lo <= v <= hi
    ensures FromChars(t, lo, hi, typeName) == Success(v)
  {
    FromCharsDigits(t, d, rest, start, lo, hi, typeName);
  }

  /** Round trip: any amount of leading spaces, the rendering of an in-range value and a
    tail that does not continue the digits convert back to the value. */
  lemma ConvertRoundTrip(n: nat, v: int, rest: string, lo: int, hi: int, typeName: string)
    requires lo <= v <= hi
    requires rest == [] || !IsDigit(rest[0])
    ensures ParseIntegral(Spaces(n) + Render(v) + rest, lo, hi, typeName) == Success(v)
  {
    assert Spaces(n) + Render(v) + rest == Spaces(n) + (Render(v) + rest);
    TrimLeftPadded(n, Render(v) + rest);
    FromCharsRendered(v, rest, lo, hi, typeName);
  }

  /** The tests expect "  6 " to convert to 6: leading spaces are trimmed, the trailing
    one ends the digits. */
  lemma ConvertExampleSix(lo: int, hi: int, typeName: string)
    requires lo <= 6 <= hi
    ensures ParseIntegral("  6 ", lo, hi, typeName) == Success(6)
  {
    TrimLeftAt("  6 ", 2);
    assert "  6 "[2..] == "6" + " ";
    FromCharsDigits("6 ", "6", " ", 0, lo, hi, typeName);
  }

  /** The tests expect "-1.5" to convert to -1 for a signed type: the '.' ends the digits. */
  lemma ConvertExampleNegative(lo: int, hi: int, typeName: string)
    requires lo <= -1 <= hi
    ensures ParseIntegral("-1.5", lo, hi, typeName) == Success(-1)
  {
    TrimLeftAt("-1.5", 0);
    assert "-1.5"[1..] == "1" + ".5";
    FromCharsDigits("-1.5", "1", ".5", 1, lo, hi, typeName);
  }

  /** Text whose trimmed form starts with neither a digit nor an accepted sign is rejected,
    as "a" and "  abc 1" are in the tests. */
  lemma ConvertRejectsNonNumeric(str: string, lo: int, hi: int, typeName: string)
    requires |TrimLeft(str)| > 0 && !IsDigit(TrimLeft(str)[0]) && TrimLeft(str)[0] != '-'
    ensures ParseIntegral(str, lo, hi, typeName) == Failure(CannotConvert(TrimLeft(str), typeName))
  {
  }

  /** An unsigned type (lo = 0) rejects a leading '-'. */
  lemma ConvertUnsignedRejectsMinus(str: string, hi: int, typeName: string)
    requires |TrimLeft(str)| > 0 && TrimLeft(str)[0] == '-'
    ensures ParseIntegral(str, 0, hi, typeName).Failure?
  {
  }

  // ---------------------------------------------------------------- trim and split

  /** `trim_right`: `str` without its trailing spaces. */
  function TrimRight(str: string): (r: string)
    ensures r <= str
    ensures forall k :: |r| <= k < |str| ==> str[k] == ' '
    ensures r == [] || r[|r| - 1] != ' '
    decreases |str|
  {
    if |str| > 0 && str[|str| - 1] == ' ' then TrimRight(str[..|str| - 1]) else str
  }

  /** `trim`: `str` without leading and trailing spaces. */
  function Trim(str: string): (r: string)
    ensures r == [] || (r[0] != ' ' && r[|r| - 1] != ' ')
  {
    var l := TrimLeft(str);
    var r := TrimRight(l);
    assert r != [] ==> r[0] == l[0];
    r
  }

  /** Trimming undoes trailing padding behind a string that does not end in a space. */
  lemma {:induction false} TrimRightPadded(r: string, n: nat)
    requires r == [] || r[|r| - 1] != ' '
    ensures TrimRight(r + Spaces(n)) == r
  {
    if n > 0 {
      assert (r + Spaces(n))[..|r| + n - 1] == r + Spaces(n - 1);
      TrimRightPadded(r, n - 1);
    } else {
      assert r + Spaces(0) == r;
    }
  }

  /** Trimming both ends undoes any padding around a string that starts and ends with
    something other than a space. */
  lemma TrimPadded(a: nat, r: string, b: nat)
    requires r == [] || (r[0] != ' ' && r[|r| - 1] != ' ')
    ensures Trim(Spaces(a) + r + Spaces(b)) == r
  {
    if r == [] {
      assert Spaces(a) + r + Spaces(b) == Spaces(a + b);
      TrimLeftAllSpaces(Spaces(a + b));
      assert Spaces(0) == [];
      TrimRightPadded([], 0);
    } else {
      assert Spaces(a) + r + Spaces(b) == Spaces(a) + (r + Spaces(b));
      TrimLeftPadded(a, r + Spaces(b));
      TrimRightPadded(r, b);
    }
  }

  /** The end of `trim_right` is determined by where the trailing spaces start. */
  lemma {:induction false} TrimRightAt(str: string, n: nat)
    requires n <= |str|
    requires forall k :: n <= k < |str| ==> str[k] == ' '
    requires n > 0 ==> str[n - 1] != ' '
    ensures TrimRight(str) == str[..n]
    decreases |str|
  {
    if |str| > n {
      TrimRightAt(str[..|str| - 1], n);
      assert str[..|str| - 1][..n] == str[..n];
    } else {
      assert str[..n] == str;
    }
  }

  /** The values of the unit tests of `trim_right` without trailing spaces. */
  lemma TrimRightExamples()
    ensures TrimRight("") == "" && TrimRight("abc") == "abc" && TrimRight("  abc") == "  abc"
  {
    TrimRightAt("abc", 3);
    assert "abc"[..3] == "abc";
    TrimRightAt("  abc", 5);
    assert "  abc"[..5] == "  abc";
  }

  /** The values of the unit tests of `trim_right` with trailing spaces. */
  lemma TrimRightPaddedExamples()
    ensures TrimRight("abc   ") == "abc" && TrimRight(" abc  ") == " abc" && TrimRight(" a b c ") == " a b c"
  {
    TrimRightAt("abc   ", 3);
    assert "abc   "[..3] == "abc";
    TrimRightAt(" abc  ", 4);
    assert " abc  "[..4] == " abc";
    TrimRightAt(" a b c ", 6);
    assert " a b c "[..6] == " a b c";
  }

  /** The values of the unit tests of `trim` without trailing spaces. */
  lemma TrimExamples()
    ensures Trim("") == "" && Trim("abc") == "abc" && Trim("  abc") == "abc"
  {
    TrimAt("", 0, 0);
    TrimAt("abc", 0, 3);
    assert "abc"[0..3] == "abc";
    TrimAt("  abc", 2, 5);
    assert "  abc"[2..5] == "abc";
  }

  /** The values of the unit tests of `trim` with trailing spaces. */
  lemma TrimPaddedExamples(right: string, both: string, inner: string)
    requires right == "abc   " && both == " abc  " && inner == " a b c "
    ensures Trim(right) == "abc" && Trim(both) == "abc" && Trim(inner) == "a b c"
  {
    TrimAt(right, 0, 3);
    assert right[0..3] == "abc";
    TrimAt(both, 1, 4);
    assert both[1..4] == "abc";
    TrimAt(inner, 1, 6);
    assert inner[1..6] == "a b c";
  }

  /** `trim` keeps exactly the text between the leading and the trailing run of spaces. */
  lemma TrimAt(str: string, a: nat, b: nat)
    requires a <= b <= |str|
    requires forall k :: 0 <= k < a ==> str[k] == ' '
    requires forall k :: b <= k < |str| ==> str[k] == ' '
    requires a < b ==> str[a] != ' ' && str[b - 1] != ' '
    requires a == b ==> b == |str|
    ensures Trim(str) == str[a..b]
  {
    TrimLeftAt(str, a);
    var l := str[a..];
    TrimRightAt(l, b - a);
    assert l[..b - a] == str[a..b];
  }

  /** `split(str, delim)`: the pieces between the delimiters, in order. The empty string
    has no pieces; every delimiter ends a piece, so adjacent delimiters give an empty one. */
  function Split(str: string, delim: char): (r: seq<string>)
    ensures r == [] <==> str == []
  {
    if str == [] then [] else SplitFrom(str, delim, 0)
  }

  /** The pieces of `str[pos..]`: up to the next delimiter, then those behind it. */
  function SplitFrom(str: string, delim: char, pos: nat): (r: seq<string>)
    requires pos <= |str|
    ensures |r| > 0
    decreases |str| - pos
  {
    var next := Find(str, [delim], pos);
    if next.None? then [str[pos..]]
    else [str[pos..next.value]] + SplitFrom(str, delim, next.value + 1)
  }

  /** The pieces, each followed by `delim` except the last. */
  function Join(pieces: seq<string>, delim: char): string {
    if |pieces| == 0 then []
    else if |pieces| == 1 then pieces[0]
    else pieces[0] + [delim] + Join(pieces[1..], delim)
  }

  /** No piece holds the delimiter, and joining the pieces gives the text back. */
  lemma SplitFromJoin(str: string, delim: char, pos: nat)
    requires pos <= |str|
    ensures Join(SplitFrom(str, delim, pos), delim) == str[pos..]
    ensures forall t :: t in SplitFrom(str, delim, pos) ==> delim !in t
  {
    SplitFromJoined(str, delim, pos);
    SplitFromClean(str, delim, pos);
  }

  /** The text before the first delimiter found from `pos` holds no delimiter. */
  lemma FirstPieceClean(str: string, delim: char, pos: nat)
    requires pos <= |str|
    ensures var next := Find(str, [delim], pos);
      delim !in str[pos..if next.None? then |str| else next.value]
  {
    var next := Find(str, [delim], pos);
    var n := if next.None? then |str| else next.value;
    forall k | pos <= k < n ensures str[k] != delim {
      OccursAtChar(str, delim, k);
    }
  }

  lemma {:induction false} SplitFromJoined(str: string, delim: char, pos: nat)
    requires pos <= |str|
    ensures Join(SplitFrom(str, delim, pos), delim) == str[pos..]
    decreases |str| - pos
  {
    var next := Find(str, [delim], pos);
    if next.Some? {
      var n := next.value;
      OccursAtChar(str, delim, n);
      SplitFromJoined(str, delim, n + 1);
      var rest := SplitFrom(str, delim, n + 1);
      assert SplitFrom(str, delim, pos) == [str[pos..n]] + rest;
      assert ([str[pos..n]] + rest)[1..] == rest;
      assert str[pos..] == str[pos..n] + [delim] + str[n + 1..];
    }
  }

  /** Piece `i` found from `pos` holds no delimiter. */
  lemma {:induction false} SplitPieceClean(str: string, delim: char, pos: nat, i: nat)
    requires pos <= |str| && i < |SplitFrom(str, delim, pos)|
    ensures delim !in SplitFrom(str, delim, pos)[i]
    decreases i
  {
    var next := Find(str, [delim], pos);
    if i == 0 {
      FirstPieceClean(str, delim, pos);
    } else {
      var n := next.value;
      SplitPieceClean(str, delim, n + 1, i - 1);
    }
  }

  lemma SplitFromClean(str: string, delim: char, pos: nat)
    requires pos <= |str|
    ensures forall t :: t in SplitFrom(str, delim, pos) ==> delim !in t
  {
    var pieces := SplitFrom(str, delim, pos);
    forall t | t in pieces ensures delim !in t {
      var i :| 0 <= i < |pieces| && pieces[i] == t;
      SplitPieceClean(str, delim, pos, i);
    }
  }

  /** Split and join are inverse: the pieces of a non-empty text join back to it, and
    none of them holds the delimiter. */
  lemma SplitJoin(str: string, delim: char)
    ensures Join(Split(str, delim), delim) == str
    ensures forall t :: t in Split(str, delim) ==> delim !in t
  {
    if str != [] {
      SplitFromJoin(str, delim, 0);
      assert str[0..] == str;
    }
  }

  /** A text without the delimiter is a single piece. */
  lemma SplitWhole(str: string, delim: char)
    requires str != [] && delim !in str
    ensures Split(str, delim) == [str]
  {
    forall k: nat | 0 <= k ensures !OccursAt(str, [delim], k) {
      OccursAtChar(str, delim, k);
    }
    assert str[0..] == str;
  }

  /** The values of the unit tests of `split` on the empty text and on a single value. */
  lemma SplitExamples()
    ensures Split("", ' ') == []
    ensures Split("42", ' ') == ["42"]
  {
    SplitWhole("42", ' ');
  }

  /** Two adjacent delimiters give an empty piece, as in the unit test of `split`. */
  lemma SplitEmptyPiece()
    ensures Split("1.5,,7.5", ',') == ["1.5", "", "7.5"]
  {
    var s := "1.5,,7.5";
    OccursAtChar(s, ',', 0);
    OccursAtChar(s, ',', 1);
    OccursAtChar(s, ',', 2);
    OccursAtChar(s, ',', 3);
    assert Find(s, [','], 0) == Some(3);
    OccursAtChar(s, ',', 4);
    assert Find(s, [','], 4) == Some(4);
    assert SplitFrom(s, ',', 5) == ["7.5"] by {
      forall k: nat | 5 <= k ensures !OccursAt(s, [','], k) {
        OccursAtChar(s, ',', k);
      }
      assert s[5..] == "7.5";
    }
    assert s[0..3] == "1.5" && s[4..4] == "";
  }
}
