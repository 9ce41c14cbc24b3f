/** The string extension methods of StringExtensions.cs that the notifier relies on,
    together with the string primitives of the .NET runtime they are written with
    (`Split`, `Trim`, `Last`), stated over `seq<char>`.

    A receiver that may be null is an `Option<string>`; a call that throws is a `Fail`. */
module StringExtensions {
  import opened Base

  /** Message of the ArgumentNullException the helpers raise for a null receiver. */
  function ArgumentNull(param: string): string {
    "Value cannot be null. Parameter name: " + param
  }

  const NullReference := "Object reference not set to an instance of an object."
  const SubstringOutOfRange := "Index and length must refer to a location within the string. Parameter name: length"

  // ---------------------------------------------------------------------------
  // Character classes (the regular-expression classes \w and \s, Char.IsWhiteSpace)

  predicate IsWordChar(c: char) {
    ('a' <= c <= 'z') || ('A' <= c <= 'Z') || ('0' <= c <= '9') || c == '_'
  }

  predicate IsWhiteSpace(c: char) {
    c == ' ' || c == '\t' || c == '\n' || c == '\r' || c == '\U{000B}' || c == '\U{000C}'
  }

  predicate AllWordChars(s: string) {
    forall i :: 0 <= i < |s| ==> IsWordChar(s[i])
  }

  predicate NoWhiteSpace(s: string) {
    forall i :: 0 <= i < |s| ==> !IsWhiteSpace(s[i])
  }

  // ---------------------------------------------------------------------------
  // Null and empty predicates

  /** `IsEmpty` throws on null; otherwise it compares with the empty string. */
  function IsEmpty(str: Option<string>): (r: Result<bool>)
    ensures r.Fail? <==> str.None?
    ensures r.Ok? ==> (r.value <==> |str.value| == 0)
  {
    match str
    case None => Fail(ArgumentNull("str"))
    case Some(s) => Ok(s == "")
  }

  /** `IsNotEmpty` is the negation of `IsEmpty`, and throws where it throws. */
  function IsNotEmpty(str: Option<string>): (r: Result<bool>)
    ensures r.Fail? <==> str.None?
    ensures r.Ok? ==> (r.value <==> |str.value| > 0)
  {
    match IsEmpty(str)
    case Fail(m) => Fail(m)
    case Ok(b) => Ok(!b)
  }

  /** Never throws: the null test short-circuits before `IsNotEmpty`. */
  function IsNotNullOrEmpty(str: Option<string>): (r: bool)
    ensures r <==> str.Some? && |str.value| > 0
  {
    str.Some? && IsNotEmpty(str) == Ok(true)
  }

  function IsNullOrEmpty(str: Option<string>): (r: bool)
    ensures r <==> str.None? || str.value == ""
  {
    !IsNotNullOrEmpty(str)
  }

  lemma NullOrEmptyIsComplement(str: Option<string>)
    ensures IsNullOrEmpty(str) != IsNotNullOrEmpty(str)
    ensures IsNotNullOrEmpty(str) ==> IsEmpty(str) == Ok(false)
  {
  }

  /** `ToNullIfEmpty` maps null and "" to null and leaves every other string alone. */
  function ToNullIfEmpty(value: Option<string>): (r: Option<string>)
    ensures r.None? <==> value.None? || value.value == ""
    ensures r.Some? ==> r == value
  {
    if IsNullOrEmpty(value) then None else value
  }

  lemma ToNullIfEmptyIdempotent(value: Option<string>)
    ensures ToNullIfEmpty(ToNullIfEmpty(value)) == ToNullIfEmpty(value)
    ensures IsNullOrEmpty(ToNullIfEmpty(value)) == IsNullOrEmpty(value)
  {
  }

  // ---------------------------------------------------------------------------
  // GetShort

  /** `GetShort` as written: the `length` argument only decides WHETHER to shorten;
      the shortened text is always the first 7 characters, so a string longer than
      `length` but shorter than 7 makes `Substring(0, 7)` throw. */
  function GetShort(str: Option<string>, length: int := 7): (r: Result<string>)
    ensures str.None? ==> r.Fail?
    ensures str.Some? && |str.value| <= length ==> r == Ok(str.value)
    ensures str.Some? && |str.value| > length ==>
              (r.Ok? <==> |str.value| >= 7) && (r.Ok? ==> r.value == str.value[..7] + "...")
  {
    match str
    case None => Fail(ArgumentNull("str"))
    case Some(s) =>
      if |s| > length then
        if |s| < 7 then Fail(SubstringOutOfRange) else Ok(s[..7] + "...")
      else Ok(s)
  }

  /** `GetShort` as its signature evidently intends: cut to `length` characters. */
  function GetShortToLength(str: Option<string>, length: int := 7): (r: Result<string>)
    ensures str.None? ==> r.Fail?
    ensures str.Some? && |str.value| <= length ==> r == Ok(str.value)
    ensures str.Some? && |str.value| > length && length >= 0 ==>
              r.Ok? && |r.value| == length + 3 && r.value[..length] == str.value[..length]
  {
    match str
    case None => Fail(ArgumentNull("str"))
    case Some(s) =>
      if |s| > length then
        if length < 0 then Fail(SubstringOutOfRange) else Ok(s[..length] + "...")
      else Ok(s)
  }

  /** Whenever the caller's `length` is not negative, the intended version never throws
      and never returns more than `length` characters of the input. */
  lemma GetShortToLengthBounded(s: string, length: nat)
    ensures GetShortToLength(Some(s), length).Ok?
    ensures |GetShortToLength(Some(s), length).value| <= length + 3
  {
  }

  /** Inputs on which the code as written departs from the intended behaviour:
      a longer cut than asked for, and an exception for a short string. */
  lemma GetShortIgnoresLength()
    ensures GetShort(Some("abcdefgh"), 3) == Ok("abcdefg...")
    ensures GetShortToLength(Some("abcdefgh"), 3) == Ok("abc...")
    ensures GetShort(Some("abcd"), 2).Fail?
    ensures GetShortToLength(Some("abcd"), 2) == Ok("ab...")
  {
    assert "abcdefgh"[..7] + "..." == "abcdefg...";
    assert "abcdefgh"[..3] + "..." == "abc...";
    assert "abcd"[..2] + "..." == "ab...";
  }

  // ---------------------------------------------------------------------------
  // IsAlfaDigit

  /** `Regex.IsMatch(value, "^\\w*$")`: `$` also matches before a final line feed. */
  predicate MatchesWordStar(s: string) {
    AllWordChars(s) || (|s| > 0 && s[|s| - 1] == '\n' && AllWordChars(s[..|s| - 1]))
  }

  function IsAlfaDigit(value: Option<string>): (r: bool)
    ensures value.None? || value.value == "" ==> r
    ensures value.Some? && AllWordChars(value.value) ==> r
    ensures r && value.Some? ==> forall i :: 0 <= i < |value.value| - 1 ==> IsWordChar(value.value[i])
    ensures r && value.Some? && value.value != "" ==>
              IsWordChar(value.value[|value.value| - 1]) || value.value[|value.value| - 1] == '\n'
  {
    if IsNotNullOrEmpty(value) then MatchesWordStar(value.value) else true
  }

  // ---------------------------------------------------------------------------
  // UpperFirstChar, with the culture's upper-casing of one character as a parameter

  function UpperFirstChar(value: Option<string>, upper: char -> char): (r: Result<string>)
    ensures r.Fail? <==> value.None?
    ensures r.Ok? ==> |r.value| == |value.value|
    ensures r.Ok? && |value.value| > 0 ==> r.value[0] == upper(value.value[0]) && r.value[1..] == value.value[1..]
  {
    match value
    case None => Fail(ArgumentNull("source"))
    case Some(s) => if |s| > 0 then Ok([upper(s[0])] + s[1..]) else Ok("")
  }

  // ---------------------------------------------------------------------------
  // Occurrences of a separator

  predicate OccursAt(s: string, sep: string, j: int) {
    0 <= j && j + |sep| <= |s| && s[j..j + |sep|] == sep
  }

  predicate Contains(s: string, sep: string) {
    exists j :: 0 <= j <= |s| && OccursAt(s, sep, j)
  }

  /** A separator with no proper prefix that is also a suffix: its occurrences cannot
      overlap, so the first occurrence after a separator-free text is the one that follows it. */
  predicate BorderFree(sep: string) {
    forall k :: 0 < k < |sep| ==> sep[..k] != sep[|sep| - k..]
  }

  lemma OccursShift(s: string, sep: string, j: int)
    requires |s| > 0 && j >= 1
    ensures OccursAt(s, sep, j) <==> OccursAt(s[1..], sep, j - 1)
  {
    if j + |sep| <= |s| {
      assert s[1..][j - 1..j - 1 + |sep|] == s[j..j + |sep|];
    }
  }

  /** The first occurrence of `sep` in `s` (String.IndexOf with ordinal comparison). */
  function IndexOf(s: string, sep: string): (r: Option<nat>)
    requires sep != ""
    ensures r.Some? ==> OccursAt(s, sep, r.value) && forall j :: 0 <= j < r.value ==> !OccursAt(s, sep, j)
    ensures r.None? ==> !Contains(s, sep)
    decreases |s|
  {
    if |s| < |sep| then None
    else if s[..|sep|] == sep then Some(0)
    else
      var rest := IndexOf(s[1..], sep);
      assert !OccursAt(s, sep, 0) by { assert s[0..|sep|] == s[..|sep|]; }
      assert forall j :: j >= 1 ==> (OccursAt(s, sep, j) <==> OccursAt(s[1..], sep, j - 1)) by {
        forall j | j >= 1 { OccursShift(s, sep, j); }
      }
      match rest
      case None => None
      case Some(k) => Some(k + 1)
  }

  lemma ContainsSingle(s: string, c: char)
    ensures Contains(s, [c]) <==> c in s
  {
    if c in s {
      var j :| 0 <= j < |s| && s[j] == c;
      assert s[j..j + 1] == [c];
      assert OccursAt(s, [c], j);
    }
    if Contains(s, [c]) {
      var j :| 0 <= j <= |s| && OccursAt(s, [c], j);
      assert s[j..j + 1][0] == c;
    }
  }

  /** Text, then a border-free separator, then anything: the first occurrence of the
      separator is the one right after the text whenever the text does not contain it. */
  lemma IndexOfAfterFree(f: string, sep: string, rest: string)
    requires sep != "" && BorderFree(sep) && !Contains(f, sep)
    ensures IndexOf(f + sep + rest, sep) == Some(|f|)
  {
    var s := f + sep + rest;
    assert s[|f|..|f| + |sep|] == sep;
    assert OccursAt(s, sep, |f|);
    forall i | 0 <= i < |f| ensures !OccursAt(s, sep, i) {
      NoOccurrenceBefore(f, sep, rest, i);
    }
  }

  lemma NoOccurrenceBefore(f: string, sep: string, rest: string, i: int)
    requires sep != "" && BorderFree(sep) && !Contains(f, sep)
    requires 0 <= i < |f|
    ensures !OccursAt(f + sep + rest, sep, i)
  {
    var s := f + sep + rest;
    if i + |sep| <= |f| {
      assert s[i..i + |sep|] == f[i..i + |sep|];
      assert !OccursAt(f, sep, i);
    } else if i + |sep| <= |s| {
      var k := |f| - i;
      assert s[i..i + |sep|][k..] == sep[..|sep| - k];
      assert sep[..|sep| - k] != sep[|sep| - (|sep| - k)..];
    }
  }

  lemma PrefixBeforeFirstIsFree(s: string, sep: string, i: nat)
    requires sep != "" && i <= |s|
    requires forall j :: 0 <= j < i ==> !OccursAt(s, sep, j)
    ensures !Contains(s[..i], sep)
  {
    forall j | 0 <= j <= i ensures !OccursAt(s[..i], sep, j) {
      if j + |sep| <= i {
        assert !OccursAt(s, sep, j);
        assert s[..i][j..j + |sep|] == s[j..j + |sep|];
      }
    }
  }

  // ---------------------------------------------------------------------------
  // Join and Split

  function Join(xs: seq<string>, sep: string): string {
    if |xs| == 0 then ""
    else if |xs| == 1 then xs[0]
    else xs[0] + sep + Join(xs[1..], sep)
  }

  /** String.Split with one separator and StringSplitOptions.None: the text between
      successive leftmost occurrences, empty pieces kept. */
  function SplitOn(s: string, sep: string): (r: seq<string>)
    requires sep != ""
    ensures |r| >= 1
    ensures Join(r, sep) == s
    ensures forall k :: 0 <= k < |r| ==> !Contains(r[k], sep)
    decreases |s|
  {
    match IndexOf(s, sep)
    case None => [s]
    case Some(i) =>
      var head := s[..i];
      PrefixBeforeFirstIsFree(s, sep, i);
      var tail := SplitOn(s[i + |sep|..], sep);
      assert s == head + sep + s[i + |sep|..];
      [head] + tail
  }

  /** `value.Split(char)`. */
  function SplitChar(s: string, c: char): (r: seq<string>)
    ensures |r| >= 1
    ensures Join(r, [c]) == s
    ensures forall k :: 0 <= k < |r| ==> c !in r[k]
  {
    var r := SplitOn(s, [c]);
    assert forall k :: 0 <= k < |r| ==> c !in r[k] by {
      forall k | 0 <= k < |r| { ContainsSingle(r[k], c); }
    }
    r
  }

  lemma JoinSplitRoundTrip(xs: seq<string>, c: char)
    requires |xs| >= 1
    requires forall k :: 0 <= k < |xs| ==> c !in xs[k]
    ensures SplitChar(Join(xs, [c]), c) == xs
    decreases |xs|
  {
    ContainsSingle(xs[0], c);
    if |xs| == 1 {
      assert IndexOf(xs[0], [c]).None?;
    } else {
      assert BorderFree([c]);
      IndexOfAfterFree(xs[0], [c], Join(xs[1..], [c]));
      var s := Join(xs, [c]);
      assert s[|xs[0]| + 1..] == Join(xs[1..], [c]);
      assert s[..|xs[0]|] == xs[0];
      JoinSplitRoundTrip(xs[1..], c);
      assert SplitOn(s, [c]) == [xs[0]] + SplitOn(Join(xs[1..], [c]), [c]);
    }
  }

  /** The extension `Split(this string value, string separator)`: null throws (from
      `Any`), "" gives no pieces, an empty separator is ignored by String.Split. */
  function Split(value: Option<string>, separator: string): (r: Result<seq<string>>)
    ensures r.Fail? <==> value.None?
    ensures value == Some("") ==> r == Ok([])
    ensures value.Some? && value.value != "" ==>
              r.Ok? && |r.value| >= 1 && Join(r.value, separator) == value.value
    ensures value.Some? && separator != "" ==>
              forall k :: 0 <= k < |r.value| ==> !Contains(r.value[k], separator)
  {
    match value
    case None => Fail(ArgumentNull("source"))
    case Some(s) =>
      if |s| == 0 then Ok([])
      else if separator == "" then Ok([s])
      else Ok(SplitOn(s, separator))
  }

  // ---------------------------------------------------------------------------
  // Trim and the last segment of a path

  predicate IsTrimmed(s: string) {
    s == "" || (!IsWhiteSpace(s[0]) && !IsWhiteSpace(s[|s| - 1]))
  }

  function TrimStart(s: string): (r: string)
    ensures |r| <= |s| && r == s[|s| - |r|..]
    ensures r == "" || !IsWhiteSpace(r[0])
    ensures forall i :: 0 <= i < |s| - |r| ==> IsWhiteSpace(s[i])
    decreases |s|
  {
    if |s| > 0 && IsWhiteSpace(s[0]) then TrimStart(s[1..]) else s
  }

  function TrimEnd(s: string): (r: string)
    ensures |r| <= |s| && r == s[..|r|]
    ensures r == "" || !IsWhiteSpace(r[|r| - 1])
    ensures forall i :: |r| <= i < |s| ==> IsWhiteSpace(s[i])
    decreases |s|
  {
    if |s| > 0 && IsWhiteSpace(s[|s| - 1]) then TrimEnd(s[..|s| - 1]) else s
  }

  /** `r` stands in `s` at position `i`. */
  predicate SliceAt(s: string, i: int, r: string) {
    0 <= i && i + |r| <= |s| && s[i..i + |r|] == r
  }

  /** String.Trim(): leading and trailing white space removed, the middle kept. */
  function Trim(s: string): (r: string)
    ensures IsTrimmed(r)
    ensures exists i :: SliceAt(s, i, r) && WhiteOutside(s, i, |r|)
  {
    var a := TrimStart(s);
    var r := TrimEnd(a);
    TrimmedSlice(s, a, r);
    r
  }

  /** Trimming the start, then the end, leaves the middle of `s` with only white space
      on either side of it. */
  lemma TrimmedSlice(s: string, a: string, r: string)
    requires |a| <= |s| && a == s[|s| - |a|..] && forall k :: 0 <= k < |s| - |a| ==> IsWhiteSpace(s[k])
    requires |r| <= |a| && r == a[..|r|] && forall k :: |r| <= k < |a| ==> IsWhiteSpace(a[k])
    requires (a == "" || !IsWhiteSpace(a[0])) && (r == "" || !IsWhiteSpace(r[|r| - 1]))
    ensures IsTrimmed(r)
    ensures SliceAt(s, |s| - |a|, r) && WhiteOutside(s, |s| - |a|, |r|)
  {
    var i := |s| - |a|;
    assert r != "" ==> r[0] == a[0];
    forall k | 0 <= k < |a| ensures a[k] == s[i + k] {
    }
    forall k | 0 <= k < |r| ensures s[i..i + |r|][k] == r[k] {
      assert r[k] == a[k];
    }
    forall k | i + |r| <= k < |s| ensures IsWhiteSpace(s[k]) {
      assert s[k] == a[k - i];
    }
  }

  /** Every character of `s` before position `i` and from `i + n` on is white space. */
  predicate WhiteOutside(s: string, i: int, n: int) {
    && (forall k :: 0 <= k < i && k < |s| ==> IsWhiteSpace(s[k]))
    && (forall k :: i + n <= k < |s| && 0 <= k ==> IsWhiteSpace(s[k]))
  }

  lemma TrimKeepsTrimmed(s: string)
    requires IsTrimmed(s)
    ensures Trim(s) == s
  {
  }

  lemma TrimAfterSpace(s: string)
    requires IsTrimmed(s)
    ensures Trim(" " + s) == s
  {
    assert (" " + s)[1..] == s;
  }

  lemma CharOfTrim(s: string, c: char)
    requires c !in s
    ensures c !in Trim(s)
  {
    var r := Trim(s);
    var i :| SliceAt(s, i, r);
    forall j | 0 <= j < |r| ensures r[j] != c {
      assert r[j] == s[i + j];
    }
  }

  /** `s.Split(c).Last()`: the text after the last `c`, or all of `s`. */
  function LastSegment(s: string, c: char): (r: string)
    ensures c !in r
    ensures |r| <= |s| && s[|s| - |r|..] == r
    ensures |r| < |s| ==> s[|s| - |r| - 1] == c
  {
    var parts := SplitChar(s, c);
    JoinEndsWithLast(parts, [c]);
    parts[|parts| - 1]
  }

  lemma {:induction false} JoinEndsWithLast(xs: seq<string>, sep: string)
    requires |xs| >= 1
    ensures var j, l := Join(xs, sep), xs[|xs| - 1];
            |l| <= |j| && j[|j| - |l|..] == l &&
            (|xs| > 1 ==> |l| + |sep| <= |j| && j[|j| - |l| - |sep|..|j| - |l|] == sep)
    decreases |xs|
  {
    if |xs| > 1 {
      JoinEndsWithLast(xs[1..], sep);
      var t := Join(xs[1..], sep);
      var l := xs[|xs| - 1];
      assert l == xs[1..][|xs[1..]| - 1];
      var j := xs[0] + sep + t;
      assert Join(xs, sep) == j;
      assert j[|j| - |l|..] == t[|t| - |l|..];
      if |xs| > 2 {
        assert j[|j| - |l| - |sep|..|j| - |l|] == t[|t| - |l| - |sep|..|t| - |l|];
      } else {
        assert t == l;
        assert j[|j| - |l| - |sep|..|j| - |l|] == sep;
      }
    }
  }

  /** LastSegment is exactly the longest suffix free of the separator. */
  lemma LastSegmentOfPath(dir: string, name: string, c: char)
    requires c !in name
    ensures LastSegment(dir + [c] + name, c) == name
  {
    var s := dir + [c] + name;
    assert s[|s| - |name|..] == name && s[|s| - |name| - 1] == c;
    SuffixAfterSeparator(s, c, LastSegment(s, c), name);
  }

  /** Two suffixes free of `c`, each preceded by `c` unless it is all of `s`, are equal. */
  lemma SuffixAfterSeparator(s: string, c: char, r: string, name: string)
    requires |r| <= |s| && s[|s| - |r|..] == r && c !in r
    requires |r| < |s| ==> s[|s| - |r| - 1] == c
    requires |name| < |s| && s[|s| - |name|..] == name && c !in name && s[|s| - |name| - 1] == c
    ensures r == name
  {
    forall p | |s| - |r| <= p < |s| ensures s[p] != c {
      assert s[p] == r[p - (|s| - |r|)];
    }
    forall p | |s| - |name| <= p < |s| ensures s[p] != c {
      assert s[p] == name[p - (|s| - |name|)];
    }
    assert |r| == |name|;
  }

  // ---------------------------------------------------------------------------
  // SplitNotEmpty

  function TrimmedNonEmpty(pieces: seq<string>): (r: seq<string>)
    ensures |r| <= |pieces|
    ensures forall k :: 0 <= k < |r| ==> r[k] != "" && IsTrimmed(r[k])
    decreases |pieces|
  {
    if |pieces| == 0 then []
    else
      var t := Trim(pieces[0]);
      (if t == "" then [] else [t]) + TrimmedNonEmpty(pieces[1..])
  }

  lemma {:induction false} TrimmedNonEmptyFree(pieces: seq<string>, c: char)
    requires forall k :: 0 <= k < |pieces| ==> c !in pieces[k]
    ensures forall k :: 0 <= k < |TrimmedNonEmpty(pieces)| ==> c !in TrimmedNonEmpty(pieces)[k]
    decreases |pieces|
  {
    if |pieces| > 0 {
      CharOfTrim(pieces[0], c);
      TrimmedNonEmptyFree(pieces[1..], c);
    }
  }

  lemma {:induction false} TrimmedNonEmptyKeeps(xs: seq<string>)
    requires forall k :: 0 <= k < |xs| ==> xs[k] != "" && IsTrimmed(xs[k])
    ensures TrimmedNonEmpty(xs) == xs
    decreases |xs|
  {
    if |xs| > 0 {
      TrimKeepsTrimmed(xs[0]);
      TrimmedNonEmptyKeeps(xs[1..]);
      assert xs == [xs[0]] + xs[1..];
    }
  }

  /** `value.Split(separator).Select(Trim).Where(IsNotNullOrEmpty).ToArray()`. */
  function SplitNotEmpty(value: Option<string>, separator: char): (r: Result<seq<string>>)
    ensures r.Fail? <==> value.None?
    ensures r.Ok? ==> forall k :: 0 <= k < |r.value| ==>
              r.value[k] != "" && IsTrimmed(r.value[k]) && separator !in r.value[k]
  {
    match value
    case None => Fail(NullReference)
    case Some(s) =>
      var pieces := SplitChar(s, separator);
      TrimmedNonEmptyFree(pieces, separator);
      Ok(TrimmedNonEmpty(pieces))
  }

  /** Joining non-empty trimmed entries with the separator and splitting again gives
      the entries back, in order. */
  lemma SplitNotEmptyOfJoin(xs: seq<string>, separator: char)
    requires forall k :: 0 <= k < |xs| ==> xs[k] != "" && IsTrimmed(xs[k]) && separator !in xs[k]
    ensures SplitNotEmpty(Some(Join(xs, [separator])), separator) == Ok(xs)
  {
    if |xs| == 0 {
      assert SplitChar("", separator) == [""] by {
        assert IndexOf("", [separator]).None?;
      }
    } else {
      JoinSplitRoundTrip(xs, separator);
      TrimmedNonEmptyKeeps(xs);
    }
  }
}
